/** Exactly when a monitor of a running detector alerts, and on what: every monitor of every run sees a sequence of
    looks at its two legs, and alerts at a look if and only if the breach that opened its episode has lasted the
    window that its spikes call for (services/arb-solver/src/sentinel/detector.ts, lines 186-331 and 385-445). */
module DetectorAlerts {
  import opened Wrappers
  import opened Graph
  import opened Detector
  import opened DetectorRings
  import opened DetectorTraces
  import opened DetectorSpreads

  // ---------- The window ----------

  /** The latest evidence of an episode opened by look j: which single leg, if any, moved. A measured look at which
      both legs spike clears it, one at which neither does leaves it. */
  ghost function Mover(looks: seq<Look>, j: nat, n: nat): Option<LegName>
    requires j < n <= |looks|
    decreases n
  {
    var o := looks[n - 1].obs;
    if o.spikeA != o.spikeB && (n == j + 1 || o.spread.Some?) then Some(if o.spikeA then A else B)
    else if n == j + 1 || (o.spikeA && o.spread.Some?) then None
    else Mover(looks, j, n - 1)
  }

  /** The window of an episode opened by look j, as known after look n - 1. */
  ghost function WindowAt(looks: seq<Look>, j: nat, n: nat, cfg: Config): int
    requires j < n <= |looks|
  {
    if Mover(looks, j, n).Some? then cfg.fastWindowMs else cfg.persistenceWindowMs
  }

  /** Opened by look j, and not over at any look up to k. */
  ghost predicate Waiting(looks: seq<Look>, j: nat, k: nat, mode: Mode, cfg: Config)
    requires k <= |looks|
  {
    && OpenSince(looks, j, k, mode, cfg)
    && forall i :: j < i < k ==> looks[i].now - looks[j].now < WindowAt(looks, j, i + 1, cfg)
  }

  lemma {:induction false} OpenedMover(now: int, o: Obs, cfg: Config)
    requires o.spread.Some?
    ensures var ep := Opened(now, o.spread.value, o, cfg);
            ep.startedAt == now && ep.fastPath == (o.spikeA != o.spikeB) &&
            ep.spikeLeg == if o.spikeA != o.spikeB then Some(if o.spikeA then A else B) else None
  {
  }

  lemma {:induction false} RecordedMover(ep: Episode, now: int, sp: Spread, cfg: Config)
    ensures var r := Recorded(ep, now, sp, cfg);
            r.startedAt == ep.startedAt && r.fastPath == ep.fastPath && r.spikeLeg == ep.spikeLeg
  {
  }

  /** A pending episode is waiting, and knows its mover. */
  lemma {:induction false} PendingWaits(looks: seq<Look>, k: nat, mode: Mode, cfg: Config) returns (j: nat)
    requires k <= |looks| && StateAt(looks, k, mode, cfg).Pending?
    ensures Waiting(looks, j, k, mode, cfg)
    ensures var ep := StateAt(looks, k, mode, cfg).ep;
            ep.startedAt == looks[j].now && ep.spikeLeg == Mover(looks, j, k) && ep.fastPath == Mover(looks, j, k).Some?
  {
    hide Recorded, Opened;
    var before, l := StateAt(looks, k - 1, mode, cfg), looks[k - 1];
    if before.Idle? {
      j := k - 1;
      OpenedMover(l.now, l.obs, cfg);
    } else {
      j := PendingWaits(looks, k - 1, mode, cfg);
      if l.obs.spread.Some? { RecordedMover(before.ep, l.now, l.obs.spread.value, cfg); }
    }
  }

  /** A waiting episode is pending. */
  lemma {:induction false} WaitsPending(looks: seq<Look>, j: nat, k: nat, mode: Mode, cfg: Config)
    requires k <= |looks| && Waiting(looks, j, k, mode, cfg)
    ensures StateAt(looks, k, mode, cfg).Pending?
    ensures var ep := StateAt(looks, k, mode, cfg).ep;
            ep.startedAt == looks[j].now && ep.spikeLeg == Mover(looks, j, k) && ep.fastPath == Mover(looks, j, k).Some?
    decreases k
  {
    hide Recorded, Opened;
    var l := looks[k - 1];
    if k == j + 1 {
      OpenedMover(l.now, l.obs, cfg);
    } else {
      WaitsPending(looks, j, k - 1, mode, cfg);
      assert Breached(l, mode, cfg) || l.obs.spread.None?;
      assert l.now - looks[j].now < WindowAt(looks, j, k, cfg);
      if l.obs.spread.Some? { RecordedMover(StateAt(looks, k - 1, mode, cfg).ep, l.now, l.obs.spread.value, cfg); }
    }
  }

  /** Look n finds the episode of look j still waiting, and its window over. */
  ghost predicate Due(looks: seq<Look>, j: nat, n: nat, mode: Mode, cfg: Config)
    requires n < |looks|
  {
    j < n && Waiting(looks, j, n, mode, cfg) && looks[n].now - looks[j].now >= WindowAt(looks, j, n + 1, cfg)
  }

  /** Exactly when a look alerts: some earlier breach in an idle monitor opened an episode, no look since has shown
      it closed or was late enough, and this one, breached or unmeasurable itself, is. */
  lemma {:induction false} AlertIff(looks: seq<Look>, n: nat, mode: Mode, cfg: Config)
    requires n < |looks|
    ensures FiresAt(looks, n, mode, cfg) <==>
              (Breached(looks[n], mode, cfg) || looks[n].obs.spread.None?) &&
              exists j: nat :: Due(looks, j, n, mode, cfg)
  {
    hide Recorded, Opened, Waiting, Evaluate, Mover, WindowAt, Breached;
    if FiresAt(looks, n, mode, cfg) {
      var j := AlertReports(looks, n, mode, cfg);
      AtLook(looks, j, n, mode, cfg);
      assert Due(looks, j, n, mode, cfg);
    }
    if j: nat :| Due(looks, j, n, mode, cfg) { AtLook(looks, j, n, mode, cfg); }
  }

  /** What one more look does to a waiting episode. */
  lemma {:induction false} AtLook(looks: seq<Look>, j: nat, n: nat, mode: Mode, cfg: Config)
    requires n < |looks| && Waiting(looks, j, n, mode, cfg)
    ensures FiresAt(looks, n, mode, cfg) <==>
              (Breached(looks[n], mode, cfg) || looks[n].obs.spread.None?) &&
              looks[n].now - looks[j].now >= WindowAt(looks, j, n + 1, cfg)
    ensures FiresAt(looks, n, mode, cfg) ==>
              var item := AfterLooks(looks, n + 1, mode, cfg).item.value;
              && item.alertedAt == looks[n].now && item.episodeStartedAt == looks[j].now
              && item.spikeLeg == Mover(looks, j, n + 1) && item.postSpike == item.spikeLeg.Some?
              && item.activeA == looks[n].obs.activeA && item.activeB == looks[n].obs.activeB
  {
    hide Recorded, Opened;
    WaitsPending(looks, j, n, mode, cfg);
    var l := looks[n];
    if l.obs.spread.Some? { RecordedMover(StateAt(looks, n, mode, cfg).ep, l.now, l.obs.spread.value, cfg); }
  }

  /** What an alert reports, besides its samples and counters. */
  lemma {:induction false} AlertReports(looks: seq<Look>, n: nat, mode: Mode, cfg: Config) returns (j: nat)
    requires n < |looks| && FiresAt(looks, n, mode, cfg)
    ensures j < n && Waiting(looks, j, n, mode, cfg)
    ensures var item := AfterLooks(looks, n + 1, mode, cfg).item.value;
            && item.alertedAt == looks[n].now && item.episodeStartedAt == looks[j].now
            && item.spikeLeg == Mover(looks, j, n + 1) && item.postSpike == item.spikeLeg.Some?
            && item.activeA == looks[n].obs.activeA && item.activeB == looks[n].obs.activeB
  {
    hide Recorded, Opened;
    j := PendingWaits(looks, n, mode, cfg);
    AtLook(looks, j, n, mode, cfg);
  }

  /** The place of an alert among the monitor's alerts, and the time of the first of them. */
  lemma {:induction false} AlertCounts(looks: seq<Look>, n: nat, mode: Mode, cfg: Config)
    requires n < |looks| && FiresAt(looks, n, mode, cfg)
    ensures var item := AfterLooks(looks, n + 1, mode, cfg).item.value;
            && item.alertCount == AlertsIn(looks, n + 1, mode, cfg)
            && exists i :: 0 <= i <= n && FiresAt(looks, i, mode, cfg) && AlertsIn(looks, i, mode, cfg) == 0 &&
                           looks[i].now == item.firstAlertAt
  {
    hide Evaluate, Fire;
    CountersExact(looks, n, mode, cfg);
    var before := AfterLooks(looks, n, mode, cfg).monitor;
    ItemCounts(before, mode, looks[n].now, looks[n].obs, cfg);
    if before.firstAlertAt.None? {
      assert AlertsIn(looks, n, mode, cfg) == 0;
    }
  }

  lemma {:induction false} ItemCounts(m: Monitor, mode: Mode, now: int, o: Obs, cfg: Config)
    requires Evaluate(m, mode, now, o, cfg).item.Some?
    ensures var item := Evaluate(m, mode, now, o, cfg).item.value;
            && item.alertCount == m.alertCount + 1
            && item.firstAlertAt == if m.firstAlertAt.Some? then m.firstAlertAt.value else now
  {
    hide Recorded, Opened, FastPathUpdated, Threshold, WindowMs;
  }

  /** Exactly when a monitor is idle after a look: it was and this one is no breach, it was pending and this one is
      measured and no breach, or it had alerted and this one is deeply clear. */
  lemma {:induction false} IdleIff(looks: seq<Look>, k: nat, mode: Mode, cfg: Config)
    requires k < |looks|
    ensures StateAt(looks, k + 1, mode, cfg).Idle? <==>
              match StateAt(looks, k, mode, cfg)
              case Idle => !Breached(looks[k], mode, cfg)
              case Pending(_) => looks[k].obs.spread.Some? && !Breached(looks[k], mode, cfg)
              case Alerted(_) => DeepClear(looks[k], mode, cfg)
  {
    hide Recorded, Opened;
  }

  // ---------- Samples ----------

  /** Every sample of an episode is the spread of a measured look, at its time. */
  ghost predicate FromLooks(samples: seq<Sample>, looks: seq<Look>, k: nat)
    requires k <= |looks|
  {
    forall x :: x in samples ==> exists i :: 0 <= i < k && SampleOf(looks[i]) == Some(x)
  }

  function SampleOf(l: Look): Option<Sample> {
    if l.obs.spread.None? then None else Some(Sample(l.now, l.obs.spread.value.metric, l.obs.spread.value.signed))
  }

  /** Up to date and well filled: the latest measured look is a sample or falls within the gap after one that was
      taken, and the gap has grown only when half the room was used. */
  ghost predicate WellFilled(ep: Episode, now: int, cfg: Config) {
    && (ep.lastSampleAt == now || now - ep.lastSampleAt < ep.sampleGapMs)
    && (ep.sampleGapMs > cfg.minSampleGapMs ==> 2 * |ep.samples| >= cfg.maxEpisodeSamples)
  }

  lemma {:induction false} EveryOtherIn(s: seq<Sample>)
    ensures forall x :: x in EveryOther(s) ==> x in s
    decreases |s|
  {
    if |s| > 1 {
      EveryOtherIn(s[2..]);
      forall x | x in EveryOther(s) ensures x in s { assert x == s[0] || x in s[2..]; }
    }
  }

  lemma {:induction false} RecordedFrom(ep: Episode, l: Look, looks: seq<Look>, k: nat, cfg: Config)
    requires k < |looks| && looks[k] == l && l.obs.spread.Some? && FromLooks(ep.samples, looks, k)
    ensures FromLooks(Recorded(ep, l.now, l.obs.spread.value, cfg).samples, looks, k + 1)
  {
    hide EveryOther;
    var x := Sample(l.now, l.obs.spread.value.metric, l.obs.spread.value.signed);
    EveryOtherIn(ep.samples + [x]);
    forall y | y in Recorded(ep, l.now, l.obs.spread.value, cfg).samples
      ensures exists i :: 0 <= i < k + 1 && SampleOf(looks[i]) == Some(y)
    {
      assert y in ep.samples || y == x;
      if y in ep.samples {
        var i :| 0 <= i < k && SampleOf(looks[i]) == Some(y);
      } else {
        assert SampleOf(looks[k]) == Some(y);
      }
    }
  }

  /** At every moment of every sequence of looks, what an open episode has sampled are spreads really seen. */
  lemma {:induction false} SamplesSeen(looks: seq<Look>, k: nat, mode: Mode, cfg: Config)
    requires k <= |looks| && !StateAt(looks, k, mode, cfg).Idle?
    ensures FromLooks(StateAt(looks, k, mode, cfg).ep.samples, looks, k)
  {
    hide Recorded;
    var before, l := StateAt(looks, k - 1, mode, cfg), looks[k - 1];
    if before.Idle? {
      RecordedFrom(Episode(l.now, l.obs.spikeA != l.obs.spikeB,
                           if l.obs.spikeA != l.obs.spikeB then Some(if l.obs.spikeA then A else B) else None, [],
                           cfg.minSampleGapMs, 0, false), l, looks, k - 1, cfg);
    } else {
      SamplesSeen(looks, k - 1, mode, cfg);
      if l.obs.spread.Some? { RecordedFrom(before.ep, l, looks, k - 1, cfg); }
    }
  }

  lemma {:induction false} RecordedFills(ep: Episode, now: int, sp: Spread, cfg: Config)
    requires ep.sampleGapMs > cfg.minSampleGapMs ==> 2 * |ep.samples| >= cfg.maxEpisodeSamples
    requires cfg.minSampleGapMs >= 0
    ensures WellFilled(Recorded(ep, now, sp, cfg), now, cfg)
    ensures ep.samples == [] ==> Recorded(ep, now, sp, cfg).lastSampleAt == now
  {
  }

  /** ... and after every measured look it is up to date and well filled. */
  lemma {:induction false} SamplesFilled(looks: seq<Look>, k: nat, mode: Mode, cfg: Config)
    requires 0 < k <= |looks| && !StateAt(looks, k, mode, cfg).Idle? && cfg.minSampleGapMs >= 0
    ensures var ep := StateAt(looks, k, mode, cfg).ep;
            ep.sampleGapMs > cfg.minSampleGapMs ==> 2 * |ep.samples| >= cfg.maxEpisodeSamples
    ensures looks[k - 1].obs.spread.Some? ==> WellFilled(StateAt(looks, k, mode, cfg).ep, looks[k - 1].now, cfg)
  {
    hide Recorded;
    var before, l := StateAt(looks, k - 1, mode, cfg), looks[k - 1];
    if before.Idle? {
      RecordedFills(Episode(l.now, l.obs.spikeA != l.obs.spikeB,
                            if l.obs.spikeA != l.obs.spikeB then Some(if l.obs.spikeA then A else B) else None, [],
                            cfg.minSampleGapMs, 0, false), l.now, l.obs.spread.value, cfg);
    } else {
      SamplesFilled(looks, k - 1, mode, cfg);
      if l.obs.spread.Some? { RecordedFills(before.ep, l.now, l.obs.spread.value, cfg); }
    }
  }

  // ---------- Monitors of a running detector ----------

  /** How often an event evaluates monitor i: once per leg of its pair quoted, and once per sweep unless idle. */
  function Evaluations(d: Detector, pair: Pair, m: Monitor, e: Event): nat {
    match e
    case OnTick(t) =>
      if t.market !in d.legs || !IsBook(t) then 0
      else (if pair.a == t.market then 1 else 0) + (if pair.b == t.market then 1 else 0)
    case MarkStale(_) => 0
    case Sweep(_) => if m.state.Idle? then 0 else 1
  }

  function EventTime(e: Event): int {
    match e
    case OnTick(t) => t.t
    case MarkStale(_) => 0
    case Sweep(now) => now
  }

  /** What monitor i has been shown by the first k events. */
  function LooksOf(pairs: seq<Pair>, es: seq<Event>, k: nat, cfg: Config, cap: Option<nat>, i: nat): seq<Look>
    requires k <= |es| && i < |pairs|
  {
    if k == 0 then [] else
      var before, after := After(pairs, es, k - 1, cfg, cap).d, After(pairs, es, k, cfg, cap).d;
      LegsThere(after, pairs, i);
      var l := Look(EventTime(es[k - 1]), Observe(pairs[i], after.legs[pairs[i].a], after.legs[pairs[i].b],
                                                  EventTime(es[k - 1]), cfg));
      LooksOf(pairs, es, k - 1, cfg, cap, i) + seq(Evaluations(before, pairs[i], before.monitors[i], es[k - 1]), _ => l)
  }

  lemma {:induction false} WatchersCount(pairs: seq<Pair>, market: int, i: nat)
    ensures multiset(Watchers(pairs, market))[i] ==
            if i < |pairs| then (if pairs[i].a == market then 1 else 0) + (if pairs[i].b == market then 1 else 0) else 0
  {
    if pairs != [] { WatchersCount(pairs[..|pairs| - 1], market, i); }
  }

  lemma {:induction false} BusyCount(monitors: seq<Monitor>, i: nat)
    ensures multiset(Busy(monitors))[i] == if i < |monitors| && !monitors[i].state.Idle? then 1 else 0
  {
    if monitors != [] { BusyCount(monitors[..|monitors| - 1], i); }
  }

  lemma {:induction false} SameStart(looks: seq<Look>, more: seq<Look>, k: nat, mode: Mode, cfg: Config)
    requires k <= |looks| <= |more| && more[..|looks|] == looks
    ensures AfterLooks(more, k, mode, cfg) == AfterLooks(looks, k, mode, cfg)
  {
    hide Evaluate;
    if k > 0 {
      SameStart(looks, more, k - 1, mode, cfg);
      assert more[k - 1] == more[..|looks|][k - 1];
    }
  }

  /** Some look from `from` on fires this item. */
  ghost predicate FiredFrom(looks: seq<Look>, from: nat, item: Item, mode: Mode, cfg: Config) {
    exists n: nat :: from <= n && ItemAt(looks, n, item, mode, cfg)
  }

  ghost predicate ItemAt(looks: seq<Look>, n: nat, item: Item, mode: Mode, cfg: Config) {
    n < |looks| && AfterLooks(looks, n + 1, mode, cfg).item == Some(item)
  }

  lemma {:induction false} OneMoreFired(looks: seq<Look>, l: Look, from: nat, item: Item, mode: Mode, cfg: Config)
    requires from <= |looks|
    ensures FiredFrom(looks + [l], from, item, mode, cfg) <==>
              FiredFrom(looks, from, item, mode, cfg) ||
              AfterLooks(looks + [l], |looks| + 1, mode, cfg).item == Some(item)
  {
    hide AfterLooks;
    var more := looks + [l];
    forall n: nat | n < |looks| ensures ItemAt(more, n, item, mode, cfg) <==> ItemAt(looks, n, item, mode, cfg) {
      SameStart(looks, more, n + 1, mode, cfg);
    }
    if FiredFrom(looks, from, item, mode, cfg) {
      var n: nat :| from <= n && ItemAt(looks, n, item, mode, cfg);
      assert ItemAt(more, n, item, mode, cfg);
    }
    if AfterLooks(more, |looks| + 1, mode, cfg).item == Some(item) { assert ItemAt(more, |looks|, item, mode, cfg); }
    if FiredFrom(more, from, item, mode, cfg) {
      var n: nat :| from <= n && ItemAt(more, n, item, mode, cfg);
      if n < |looks| { assert ItemAt(looks, n, item, mode, cfg); }
    }
  }

  /** Monitor i stands where the looks have brought it, and has fired what they fired since `from`. */
  ghost predicate Shown(x: Outcome, i: nat, looks: seq<Look>, from: nat, mode: Mode, cfg: Config) {
    && i < |x.d.monitors| && x.d.monitors[i] == AfterLooks(looks, |looks|, mode, cfg).monitor
    && forall item :: (i, item) in x.items <==> FiredFrom(looks, from, item, mode, cfg)
  }

  lemma {:induction false} ShownOnce(x: Outcome, pairs: seq<Pair>, i: nat, now: int, cfg: Config, looks: seq<Look>,
                                     from: nat)
    requires Fits(x.d, pairs) && i < |pairs| && pairs[i].a in x.d.legs && pairs[i].b in x.d.legs && from <= |looks|
    requires Shown(x, i, looks, from, pairs[i].mode, cfg)
    ensures var l := Look(now, Observe(pairs[i], x.d.legs[pairs[i].a], x.d.legs[pairs[i].b], now, cfg));
            Shown(EvaluateAt(x, pairs, i, now, cfg), i, looks + [l], from, pairs[i].mode, cfg)
  {
    hide Observe, Evaluate, FiredFrom;
    var mode, l := pairs[i].mode, Look(now, Observe(pairs[i], x.d.legs[pairs[i].a], x.d.legs[pairs[i].b], now, cfg));
    SameStart(looks, looks + [l], |looks|, mode, cfg);
    forall item { OneMoreFired(looks, l, from, item, mode, cfg); }
  }

  lemma {:induction false} OtherShown(x: Outcome, pairs: seq<Pair>, other: nat, now: int, cfg: Config, i: nat,
                                      looks: seq<Look>, from: nat)
    requires Fits(x.d, pairs) && i < |pairs| && other < |pairs| && other != i
    requires Shown(x, i, looks, from, pairs[i].mode, cfg)
    ensures Shown(EvaluateAt(x, pairs, other, now, cfg), i, looks, from, pairs[i].mode, cfg)
  {
    hide Observe, Evaluate, FiredFrom, AfterLooks;
  }

  /** Evaluating a list leaves the legs alone and shows monitor i the same look as often as it is listed. */
  lemma {:induction false} ListShows(d: Detector, pairs: seq<Pair>, list: seq<nat>, now: int, cfg: Config, i: nat,
                                     looks: seq<Look>)
    requires Fits(d, pairs) && i < |pairs| && forall k :: 0 <= k < |list| ==> list[k] < |pairs|
    requires pairs[i].a in d.legs && pairs[i].b in d.legs
    requires d.monitors[i] == AfterLooks(looks, |looks|, pairs[i].mode, cfg).monitor
    ensures var l := Look(now, Observe(pairs[i], d.legs[pairs[i].a], d.legs[pairs[i].b], now, cfg));
            && EvaluateList(d, pairs, list, now, cfg).d.legs == d.legs
            && Shown(EvaluateList(d, pairs, list, now, cfg), i, looks + seq(multiset(list)[i], _ => l), |looks|,
                     pairs[i].mode, cfg)
  {
    hide Observe, Evaluate, FiredFrom, Shown;
    var l := Look(now, Observe(pairs[i], d.legs[pairs[i].a], d.legs[pairs[i].b], now, cfg));
    if list == [] {
      assert looks + seq(multiset(list)[i], _ => l) == looks;
      NothingShown(d, i, looks, pairs[i].mode, cfg);
    } else {
      var m := |list| - 1;
      ListShows(d, pairs, list[..m], now, cfg, i, looks);
      assert list == list[..m] + [list[m]];
      var some := looks + seq(multiset(list[..m])[i], _ => l);
      var x := EvaluateList(d, pairs, list[..m], now, cfg);
      if list[m] == i {
        assert looks + seq(multiset(list)[i], _ => l) == some + [l];
        ShownOnce(x, pairs, i, now, cfg, some, |looks|);
      } else {
        OtherShown(x, pairs, list[m], now, cfg, i, some, |looks|);
      }
    }
  }

  lemma {:induction false} NothingShown(d: Detector, i: nat, looks: seq<Look>, mode: Mode, cfg: Config)
    requires i < |d.monitors| && d.monitors[i] == AfterLooks(looks, |looks|, mode, cfg).monitor
    ensures Shown(Outcome(d, []), i, looks, |looks|, mode, cfg)
  {
    hide AfterLooks;
  }

  /** The legs an event leaves are the legs it evaluates. */
  lemma {:induction false} LegsOfStep(d: Detector, pairs: seq<Pair>, e: Event, cfg: Config, cap: Option<nat>)
    requires Fits(d, pairs)
    ensures e.OnTick? && e.e.market in d.legs && IsBook(e.e) ==>
              Step(d, pairs, e, cfg, cap).d.legs == d.legs[e.e.market := Fed(d.legs[e.e.market], e.e, MidGap(cfg), cap)]
    ensures e.Sweep? ==> Step(d, pairs, e, cfg, cap).d.legs == d.legs
  {
    hide Fed, MidGap;
    if e.OnTick? && e.e.market in d.legs && IsBook(e.e) {
      var fed := d.(legs := d.legs[e.e.market := Fed(d.legs[e.e.market], e.e, MidGap(cfg), cap)]);
      assert fed.legs.Keys == d.legs.Keys;
      ListKeepsLegs(fed, pairs, Watchers(pairs, e.e.market), e.e.t, cfg);
    }
    if e.Sweep? { ListKeepsLegs(d, pairs, Busy(d.monitors), e.now, cfg); }
  }

  lemma {:induction false} ListKeepsLegs(d: Detector, pairs: seq<Pair>, list: seq<nat>, now: int, cfg: Config)
    requires Fits(d, pairs) && forall k :: 0 <= k < |list| ==> list[k] < |pairs|
    ensures EvaluateList(d, pairs, list, now, cfg).d.legs == d.legs
  {
    hide Observe, Evaluate;
    if list != [] { ListKeepsLegs(d, pairs, list[..|list| - 1], now, cfg); }
  }

  lemma {:induction false} StepShows(d: Detector, pairs: seq<Pair>, e: Event, cfg: Config, cap: Option<nat>, i: nat,
                                     looks: seq<Look>)
    requires Fits(d, pairs) && i < |pairs| && d.monitors[i] == AfterLooks(looks, |looks|, pairs[i].mode, cfg).monitor
    ensures var r := Step(d, pairs, e, cfg, cap);
            pairs[i].a in r.d.legs && pairs[i].b in r.d.legs &&
            var l := Look(EventTime(e), Observe(pairs[i], r.d.legs[pairs[i].a], r.d.legs[pairs[i].b], EventTime(e),
                                                cfg));
            Shown(r, i, looks + seq(Evaluations(d, pairs[i], d.monitors[i], e), _ => l), |looks|, pairs[i].mode, cfg)
  {
    hide Observe, Evaluate, FiredFrom, Shown, EvaluateList, Fed, MidGap, Watchers, Busy, AfterLooks;
    var r := Step(d, pairs, e, cfg, cap);
    LegsThere(r.d, pairs, i);
    LegsOfStep(d, pairs, e, cfg, cap);
    var l := Look(EventTime(e), Observe(pairs[i], r.d.legs[pairs[i].a], r.d.legs[pairs[i].b], EventTime(e), cfg));
    if e.OnTick? && e.e.market in d.legs && IsBook(e.e) {
      WatchersCount(pairs, e.e.market, i);
      var fed := d.(legs := d.legs[e.e.market := Fed(d.legs[e.e.market], e.e, MidGap(cfg), cap)]);
      assert fed.legs.Keys == d.legs.Keys;
      ListShows(fed, pairs, Watchers(pairs, e.e.market), e.e.t, cfg, i, looks);
    } else if e.Sweep? {
      BusyCount(d.monitors, i);
      ListShows(d, pairs, Busy(d.monitors), e.now, cfg, i, looks);
    } else {
      assert looks + seq(0, _ => l) == looks;
      NothingShown(r.d, i, looks, pairs[i].mode, cfg);
    }
  }

  /** Every monitor of every run of the detector, with rings or without, is where its own looks have brought it. */
  lemma {:induction false} MonitorIsTrace(pairs: seq<Pair>, es: seq<Event>, k: nat, cfg: Config, cap: Option<nat>,
                                          i: nat)
    requires k <= |es| && i < |pairs|
    ensures var looks := LooksOf(pairs, es, k, cfg, cap, i);
            After(pairs, es, k, cfg, cap).d.monitors[i] == AfterLooks(looks, |looks|, pairs[i].mode, cfg).monitor
  {
    hide Observe, Evaluate, Step, Evaluations;
    if k > 0 {
      MonitorIsTrace(pairs, es, k - 1, cfg, cap, i);
      StepShows(After(pairs, es, k - 1, cfg, cap).d, pairs, es[k - 1], cfg, cap, i,
                LooksOf(pairs, es, k - 1, cfg, cap, i));
    }
  }

  /** The items event k fires for pair i are exactly those its new looks fire. */
  lemma {:induction false} ItemsAreTrace(pairs: seq<Pair>, es: seq<Event>, k: nat, cfg: Config, cap: Option<nat>,
                                         i: nat, item: Item)
    requires 0 < k <= |es| && i < |pairs|
    ensures (i, item) in After(pairs, es, k, cfg, cap).items <==>
              FiredFrom(LooksOf(pairs, es, k, cfg, cap, i), |LooksOf(pairs, es, k - 1, cfg, cap, i)|, item,
                        pairs[i].mode, cfg)
  {
    hide Observe, Evaluate, Step, Evaluations, FiredFrom, AfterLooks;
    MonitorIsTrace(pairs, es, k - 1, cfg, cap, i);
    StepShows(After(pairs, es, k - 1, cfg, cap).d, pairs, es[k - 1], cfg, cap, i,
              LooksOf(pairs, es, k - 1, cfg, cap, i));
  }

  /** Every look is what the legs showed after some event. */
  lemma {:induction false} LookFrom(pairs: seq<Pair>, es: seq<Event>, k: nat, cfg: Config, cap: Option<nat>, i: nat,
                                    n: nat) returns (s: nat)
    requires k <= |es| && i < |pairs| && n < |LooksOf(pairs, es, k, cfg, cap, i)|
    ensures 0 < s <= k && !es[s - 1].MarkStale?
    ensures var legs := After(pairs, es, s, cfg, cap).d.legs;
            && pairs[i].a in legs && pairs[i].b in legs
            && LooksOf(pairs, es, k, cfg, cap, i)[n] ==
                 Look(EventTime(es[s - 1]), Observe(pairs[i], legs[pairs[i].a], legs[pairs[i].b], EventTime(es[s - 1]),
                                                    cfg))
  {
    hide Observe, After;
    LegsThere(After(pairs, es, k, cfg, cap).d, pairs, i);
    if n < |LooksOf(pairs, es, k - 1, cfg, cap, i)| {
      s := LookFrom(pairs, es, k - 1, cfg, cap, i, n);
    } else {
      s := k;
    }
  }

  // ---------- Legs of a run ----------

  /** Event i quotes market m with a book. */
  predicate QuotesAt(es: seq<Event>, i: nat, m: int) {
    i < |es| && es[i].OnTick? && es[i].e.market == m && IsBook(es[i].e)
  }

  predicate MarksAt(es: seq<Event>, i: nat, m: int) {
    i < |es| && es[i].MarkStale? && m in es[i].markets
  }

  /** The books quoted for market m by the first k events, in order. */
  function BooksOf(es: seq<Event>, k: nat, m: int): seq<TickEvent>
    requires k <= |es|
  {
    if k == 0 then []
    else BooksOf(es, k - 1, m) + if QuotesAt(es, k - 1, m) then [es[k - 1].e] else []
  }

  /** Marked stale, and not quoted since. */
  ghost predicate MarkedSince(es: seq<Event>, k: nat, m: int) {
    exists j: nat :: j < k && MarksAt(es, j, m) && forall i: nat :: j < i < k ==> !QuotesAt(es, i, m)
  }

  lemma {:induction false} MarkedNext(es: seq<Event>, k: nat, m: int)
    requires 0 < k <= |es|
    ensures MarkedSince(es, k, m) <==> MarksAt(es, k - 1, m) || (MarkedSince(es, k - 1, m) && !QuotesAt(es, k - 1, m))
  {
    if j: nat :| j < k && MarksAt(es, j, m) && forall i: nat :: j < i < k ==> !QuotesAt(es, i, m) {
      if j < k - 1 { assert MarkedSince(es, k - 1, m) && !QuotesAt(es, k - 1, m); }
    }
    if MarksAt(es, k - 1, m) { assert MarkedSince(es, k, m); }
    if MarkedSince(es, k - 1, m) && !QuotesAt(es, k - 1, m) {
      var j: nat :| j < k - 1 && MarksAt(es, j, m) && forall i: nat :: j < i < k - 1 ==> !QuotesAt(es, i, m);
      forall i: nat | j < i < k ensures !QuotesAt(es, i, m) {}
    }
  }

  /** Every leg of every run is the one its own market's books make, flagged stale exactly when it was marked since
      the last of them; nothing else that happens touches it. */
  lemma {:induction false} LegIsFed(pairs: seq<Pair>, es: seq<Event>, k: nat, cfg: Config, cap: Option<nat>, m: int)
    requires k <= |es| && m in Watched(pairs)
    ensures var legs := After(pairs, es, k, cfg, cap).d.legs;
            m in legs &&
            legs[m] == FedLeg(BooksOf(es, k, m), MidGap(cfg), cap).(staleFlagged := MarkedSince(es, k, m))
  {
    hide Step, Fed, FedLeg, MarkedSince, MidGap;
    if k > 0 {
      LegIsFed(pairs, es, k - 1, cfg, cap, m);
      var before := BooksOf(es, k - 1, m);
      assert QuotesAt(es, k - 1, m) || BooksOf(es, k, m) == before + [] == before;
      MarkedNext(es, k, m);
      LegNext(After(pairs, es, k - 1, cfg, cap).d, pairs, es, k - 1, cfg, cap, m);
      OneMoreBook(BooksOf(es, k - 1, m), es[k - 1], MidGap(cfg), cap, MarkedSince(es, k - 1, m));
    } else {
      NothingYet(es, m, MidGap(cfg), cap);
    }
  }

  lemma {:induction false} NothingYet(es: seq<Event>, m: int, gap: int, cap: Option<nat>)
    ensures NewLeg() == FedLeg([], gap, cap).(staleFlagged := MarkedSince(es, 0, m))
  {
  }

  lemma {:induction false} OneMoreBook(books: seq<TickEvent>, e: Event, gap: int, cap: Option<nat>, stale: bool)
    ensures e.OnTick? ==> FedLeg(books + [e.e], gap, cap) ==
                          Fed(FedLeg(books, gap, cap).(staleFlagged := stale), e.e, gap, cap) &&
                          !FedLeg(books + [e.e], gap, cap).staleFlagged
  {
    if e.OnTick? { assert (books + [e.e])[..|books|] == books; }
  }

  lemma {:induction false} LegNext(d: Detector, pairs: seq<Pair>, es: seq<Event>, k: nat, cfg: Config,
                                   cap: Option<nat>, m: int)
    requires k < |es| && Fits(d, pairs) && m in d.legs
    ensures var legs := Step(d, pairs, es[k], cfg, cap).d.legs;
            m in legs &&
            legs[m] == if QuotesAt(es, k, m) then Fed(d.legs[m], es[k].e, MidGap(cfg), cap)
                       else if MarksAt(es, k, m) then d.legs[m].(staleFlagged := true) else d.legs[m]
  {
    hide Fed, MidGap, EvaluateList;
    LegsOfStep(d, pairs, es[k], cfg, cap);
  }

  // ---------- Alerts of a run ----------

  /** Both legs live, and the pair above its threshold in its own mode. */
  ghost predicate Apart(pair: Pair, a: Leg, b: Leg, cfg: Config) {
    BothLive(a, b) &&
    match pair.mode
    case Mutex => (a.bid.value + a.ask.value + b.bid.value + b.ask.value) / 2.0 > 1.0 + cfg.mutexFeeAllowance +
           cfg.mutexThreshold
    case Equal =>
      if cfg.useCrossablePrices then
        a.bid.value > b.ask.value + cfg.spreadThreshold || b.bid.value > a.ask.value + cfg.spreadThreshold
      else
        (a.bid.value + a.ask.value - b.bid.value - b.ask.value) / 2.0 > cfg.spreadThreshold ||
        (b.bid.value + b.ask.value - a.bid.value - a.ask.value) / 2.0 > cfg.spreadThreshold
  }

  lemma {:induction false} ApartIff(pair: Pair, a: Leg, b: Leg, now: int, cfg: Config)
    requires cfg.mutexThreshold >= 0.0 && cfg.spreadThreshold >= 0.0
    ensures Breached(Look(now, Observe(pair, a, b, now, cfg)), pair.mode, cfg) <==> Apart(pair, a, b, cfg)
  {
    hide RecentSpike, LegActive, PairSpread;
    MeasuredIff(pair, a, b, cfg);
    if BothLive(a, b) {
      if pair.mode.Mutex? { MutexAbove(pair, a, b, cfg, cfg.mutexThreshold); } else {
        EqualAbove(pair, a, b, cfg, cfg.spreadThreshold);
      }
    }
  }

  lemma {:induction false} ItemFires(looks: seq<Look>, n: nat, item: Item, mode: Mode, cfg: Config)
    requires ItemAt(looks, n, item, mode, cfg)
    ensures n < |looks| && FiresAt(looks, n, mode, cfg) && AfterLooks(looks, n + 1, mode, cfg).item.value == item
  {
    hide Evaluate;
  }

  /** Every alert of every run, with rings or without: at the event its episode is dated from, both legs were live
      and the pair really apart, in its own mode. */
  lemma {:induction false} AlertWasApart(pairs: seq<Pair>, es: seq<Event>, k: nat, cfg: Config, cap: Option<nat>,
                                         i: nat, item: Item)
    returns (s: nat)
    requires 0 < k <= |es| && i < |pairs| && (i, item) in After(pairs, es, k, cfg, cap).items
    requires cfg.mutexThreshold >= 0.0 && cfg.spreadThreshold >= 0.0
    ensures 0 < s <= k && EventTime(es[s - 1]) == item.episodeStartedAt
    ensures var legs := After(pairs, es, s, cfg, cap).d.legs;
            pairs[i].a in legs && pairs[i].b in legs && Apart(pairs[i], legs[pairs[i].a], legs[pairs[i].b], cfg)
  {
    hide Observe, Evaluate, After, LooksOf, Apart, Waiting;
    ItemsAreTrace(pairs, es, k, cfg, cap, i, item);
    var looks, mode := LooksOf(pairs, es, k, cfg, cap, i), pairs[i].mode;
    var n: nat :| ItemAt(looks, n, item, mode, cfg);
    ItemFires(looks, n, item, mode, cfg);
    var j := AlertHasHistory(looks, n, mode, cfg);
    s := LookFrom(pairs, es, k, cfg, cap, i, j);
    var legs := After(pairs, es, s, cfg, cap).d.legs;
    ApartIff(pairs[i], legs[pairs[i].a], legs[pairs[i].b], looks[j].now, cfg);
  }
}
