/** Exactly when 64-entry rings are enough (services/arb-solver/src/sentinel/detector.ts, lines 37-39 and 353-358): the
    two update-count thresholds must fit a ring, and the mids must be thinned or the burst window open. Whenever one of
    these fails, a run shows the difference. */
module DetectorRingLimits {
  import opened Wrappers
  import opened Graph
  import opened Detector
  import opened DetectorRings

  // ---------- One leg ----------

  ghost predicate CountsAlike(k: int) {
    forall ring: seq<int>, full: seq<int>, cutoff: int :: EndOf(ring, full) ==>
             (CountSince(ring, cutoff) >= k <==> CountSince(full, cutoff) >= k)
  }

  function Zeros(n: nat): seq<int> {
    seq(n, _ => 0)
  }

  lemma {:induction false} CountZeros(n: nat, cutoff: int)
    requires cutoff <= 0
    ensures CountSince(Zeros(n), cutoff) == n
  {
    if n > 0 {
      assert Zeros(n)[..n - 1] == Zeros(n - 1);
      CountZeros(n - 1, cutoff);
    }
  }

  /** A threshold is met alike with and without a ring, whatever was fed, exactly when it fits the ring. */
  lemma {:induction false} CountAgreesIff(k: int)
    ensures CountsAlike(k) <==> k <= RING
  {
    if k <= RING {
      forall ring: seq<int>, full: seq<int>, cutoff: int | EndOf(ring, full)
        ensures CountSince(ring, cutoff) >= k <==> CountSince(full, cutoff) >= k
      {
        CountAgrees(ring, full, cutoff, k);
      }
    } else {
      var ring, full := Zeros(RING), Zeros(k);
      assert ring == full[k - RING..];
      assert EndOf(ring, full);
      CountZeros(RING, 0);
      CountZeros(k, 0);
    }
  }

  ghost predicate JumpIn(mids: seq<Mid>, mid: real, now: int, cfg: Config) {
    exists h | h in mids :: Jumped(mid, h, now, cfg)
  }

  ghost predicate SpikesAlike(cfg: Config) {
    forall ring: seq<Mid>, full: seq<Mid>, last: int, now: int, mid: real ::
      EndOf(ring, full) && Spaced(full, MidGap(cfg), last) && last <= now ==>
      (JumpIn(ring, mid, now, cfg) <==> JumpIn(full, mid, now, cfg))
  }

  function Mids(n: nat, mid: real): seq<Mid> {
    seq(n, _ => Mid(0, mid))
  }

  /** The jump search finds the same with and without a ring on every thinned history exactly when the mids are thinned
      or the burst window is open. */
  lemma {:induction false} SpikeAgreesIff(cfg: Config)
    requires cfg.spikeMoveMin > 0.0
    ensures SpikesAlike(cfg) <==> Separable(cfg)
  {
    hide MidGap, EndOf, Spaced, Jumped;
    if Separable(cfg) {
      forall ring: seq<Mid>, full: seq<Mid>, last: int, now: int, mid: real | EndOf(ring, full) &&
                 Spaced(full, MidGap(cfg), last) && last <= now
        ensures JumpIn(ring, mid, now, cfg) <==> JumpIn(full, mid, now, cfg)
      {
        SpikeAgrees(ring, full, last, now, mid, cfg);
      }
    } else {
      var ring := Mids(RING, cfg.spikeMoveMin);
      var full := [Mid(0, 0.0)] + ring;
      Forgets(cfg);
      assert JumpIn(ring, cfg.spikeMoveMin, 0, cfg) != JumpIn(full, cfg.spikeMoveMin, 0, cfg);
    }
  }

  lemma {:induction false} Forgets(cfg: Config)
    requires cfg.spikeMoveMin > 0.0 && !Separable(cfg)
    ensures var ring := Mids(RING, cfg.spikeMoveMin); var full := [Mid(0, 0.0)] + ring;
            && EndOf(ring, full) && Spaced(full, MidGap(cfg), 0)
            && (exists h | h in full :: Jumped(cfg.spikeMoveMin, h, 0, cfg)) &&
               !(exists h | h in ring :: Jumped(cfg.spikeMoveMin, h, 0, cfg))
  {
    hide MidGap;
    var ring := Mids(RING, cfg.spikeMoveMin);
    var full := [Mid(0, 0.0)] + ring;
    assert full[0] in full && Jumped(cfg.spikeMoveMin, full[0], 0, cfg);
    forall h | h in ring ensures !Jumped(cfg.spikeMoveMin, h, 0, cfg) {}
  }

  // ---------- A run ----------

  /** Thresholds and moves a $0..1 book can reach, and an activity window that is open. */
  predicate Reachable(cfg: Config) {
    cfg.spreadThreshold < 1.0 && 0.0 < cfg.spikeMoveMin <= 1.0 && cfg.spikeBurstMs >= 0 && cfg.activityWindowMs > 0
  }

  /** When every window of an episode opened at 0 is over. */
  function Deadline(cfg: Config): int {
    var longer := if cfg.persistenceWindowMs > cfg.fastWindowMs then cfg.persistenceWindowMs else cfg.fastWindowMs;
    if longer > 0 then longer else 0
  }

  function OnePair(): seq<Pair> {
    [Pair(Equal, 1, 2)]
  }

  function Quote(market: int, price: real, t: int): Event {
    Event.OnTick(TickEvent(market, price, price, t))
  }

  /** Market 1 at `first`, then n times at 1, all at one instant; then market 2 at 0; then a sweep. */
  function Burst(n: nat, first: real, end: int): seq<Event> {
    [Quote(1, first, 0)] + seq(n, _ => Quote(1, 1.0, 0)) + [Quote(2, 0.0, 0), Sweep(end)]
  }

  /** Market 1 at 1 and market 2 at 0; market 1 n times more, just before the sweep. */
  function Late(n: nat, end: int): seq<Event> {
    [Quote(1, 1.0, 0), Quote(2, 0.0, 0)] + seq(n, _ => Quote(1, 1.0, end - 1)) + [Sweep(end)]
  }

  /** Leg 1 after a first quote at 0 and n quotes of 1 at t. */
  function FedLeg(n: nat, first: real, t: int, gap: int, cap: Option<nat>): Leg {
    if n == 0 then Fed(NewLeg(), TickEvent(1, first, first, 0), gap, cap)
    else Fed(FedLeg(n - 1, first, t, gap, cap), TickEvent(1, 1.0, 1.0, t), gap, cap)
  }

  lemma {:induction false} BurstNeverBack(n: nat, first: real, end: int)
    requires end >= 0
    ensures NeverBack(Burst(n, first, end), 0)
  {
    var es := Burst(n, first, end);
    forall k | 0 <= k < |es| ensures Clock(es, k, 0) <= TimeOf(es[k], Clock(es, k, 0)) {
      BurstClock(n, first, end, k);
    }
  }

  lemma {:induction false} BurstClock(n: nat, first: real, end: int, k: nat)
    requires k < |Burst(n, first, end)|
    ensures Clock(Burst(n, first, end), k, 0) == 0
  {
    if k > 0 { BurstClock(n, first, end, k - 1); }
  }

  lemma {:induction false} LateNeverBack(n: nat, end: int)
    requires end > 0
    ensures NeverBack(Late(n, end), 0)
  {
    var es := Late(n, end);
    forall k | 0 <= k < |es| ensures Clock(es, k, 0) <= TimeOf(es[k], Clock(es, k, 0)) {
      LateClock(n, end, k);
    }
  }

  lemma {:induction false} LateClock(n: nat, end: int, k: nat)
    requires k < |Late(n, end)|
    ensures Clock(Late(n, end), k, 0) == if k <= 2 then 0 else end - 1
  {
    if k > 0 { LateClock(n, end, k - 1); }
  }

  /** While market 2 has no quote, nothing but leg 1 moves. */
  lemma {:induction false} BurstFed(n: nat, first: real, end: int, cfg: Config, cap: Option<nat>, k: nat)
    requires k <= n && 0.0 <= first <= 1.0
    ensures var d := After(OnePair(), Burst(n, first, end), k + 1, cfg, cap).d;
            d == Detector(map[1 := FedLeg(k, first, 0, MidGap(cfg), cap), 2 := NewLeg()], [NewMonitor()])
  {
    hide MidGap, Fed, Evaluate;
    var es := Burst(n, first, end);
    if k == 0 {
      StartOf();
      assert After(OnePair(), es, 0, cfg, cap).d == Start(OnePair());
      QuietTick(Start(OnePair()), TickEvent(1, first, first, 0), cfg, cap);
    } else {
      BurstFed(n, first, end, cfg, cap, k - 1);
      assert es[k] == Quote(1, 1.0, 0);
      QuietTick(After(OnePair(), es, k, cfg, cap).d, TickEvent(1, 1.0, 1.0, 0), cfg, cap);
    }
  }

  lemma {:induction false} StartOf()
    ensures Start(OnePair()) == Detector(map[1 := NewLeg(), 2 := NewLeg()], [NewMonitor()])
  {
    assert OnePair()[0] in OnePair();
    assert Watched(OnePair()) == {1, 2};
  }

  lemma {:induction false} WatchersOf()
    ensures Watchers(OnePair(), 1) == [0] && Watchers(OnePair(), 2) == [0]
  {
    assert OnePair()[..0] == [];
  }

  ghost predicate Two(d: Detector) {
    d.legs.Keys == {1, 2} && |d.monitors| == 1
  }

  lemma {:induction false} TwoFits(d: Detector)
    requires Two(d)
    ensures Fits(d, OnePair())
  {
    StartOf();
    assert Fits(Start(OnePair()), OnePair());
  }

  function Seen(d: Detector, now: int, cfg: Config): Evaluated
    requires Two(d)
  {
    Evaluate(d.monitors[0], Equal, now, Observe(Pair(Equal, 1, 2), d.legs[1], d.legs[2], now, cfg), cfg)
  }

  /** With one pair, evaluating the list is evaluating its monitor. */
  lemma {:induction false} OnlyMonitor(d: Detector, now: int, cfg: Config)
    requires Two(d)
    ensures Fits(d, OnePair())
    ensures var r := Seen(d, now, cfg);
            EvaluateList(d, OnePair(), [0], now, cfg) ==
            Outcome(d.(monitors := [r.monitor]), if r.item.Some? then [(0, r.item.value)] else [])
  {
    hide Observe, Evaluate;
    TwoFits(d);
    assert [0][..0] == [];
    assert EvaluateList(d, OnePair(), [], now, cfg) == Outcome(d, []);
    assert d.monitors[0 := Seen(d, now, cfg).monitor] == [Seen(d, now, cfg).monitor];
  }

  lemma {:induction false} OneTick(d: Detector, e: TickEvent, cfg: Config, cap: Option<nat>)
    requires Two(d) && e.market in {1, 2} && IsBook(e)
    ensures Fits(d, OnePair()) && Two(d.(legs := d.legs[e.market := Fed(d.legs[e.market], e, MidGap(cfg), cap)]))
    ensures var fed := d.(legs := d.legs[e.market := Fed(d.legs[e.market], e, MidGap(cfg), cap)]);
            Step(d, OnePair(), Event.OnTick(e), cfg, cap).d == fed.(monitors := [Seen(fed, e.t, cfg).monitor])
  {
    hide MidGap, Fed, Seen, EvaluateList;
    TwoFits(d);
    WatchersOf();
    var fed := d.(legs := d.legs[e.market := Fed(d.legs[e.market], e, MidGap(cfg), cap)]);
    assert fed.legs.Keys == {1, 2};
    OnlyMonitor(fed, e.t, cfg);
  }

  lemma {:induction false} QuietTick(d: Detector, e: TickEvent, cfg: Config, cap: Option<nat>)
    requires Two(d) && d.legs[2] == NewLeg() && d.monitors == [NewMonitor()] && e.market == 1 && IsBook(e)
    ensures Fits(d, OnePair())
    ensures Step(d, OnePair(), Event.OnTick(e), cfg, cap).d ==
            Detector(map[1 := Fed(d.legs[1], e, MidGap(cfg), cap), 2 := NewLeg()], [NewMonitor()])
  {
    hide MidGap, Fed, Observe, Step;
    OneTick(d, e, cfg, cap);
    var fed := d.(legs := d.legs[1 := Fed(d.legs[1], e, MidGap(cfg), cap)]);
    Unmeasured(fed.legs[1], e.t, cfg);
    assert fed.legs == map[1 := Fed(d.legs[1], e, MidGap(cfg), cap), 2 := NewLeg()];
  }

  lemma {:induction false} Unmeasured(a: Leg, now: int, cfg: Config)
    ensures Observe(Pair(Equal, 1, 2), a, NewLeg(), now, cfg).spread.None?
  {
  }

  // ---------- What the leg remembers ----------

  lemma {:induction false} FedQuote(n: nat, first: real, t: int, gap: int, cap: Option<nat>)
    ensures var l := FedLeg(n, first, t, gap, cap);
            l.lastUpdateAt.Some? && !l.staleFlagged && l.bid == l.ask == Some(if n == 0 then first else 1.0)
  {
  }

  function Times(n: nat, t: int): seq<int> {
    [0] + seq(n, _ => t)
  }

  lemma {:induction false} CountTimes(n: nat, t: int, cutoff: int)
    requires cutoff <= t
    ensures CountSince(Times(n, t), cutoff) >= n
  {
    if n > 0 {
      assert Times(n, t)[..n] == Times(n - 1, t);
      CountTimes(n - 1, t, cutoff);
    }
  }

  /** Everything: n + 1 updates, and the first mid. */
  lemma {:induction false} WholeHistory(n: nat, first: real, t: int, gap: int)
    ensures var l := FedLeg(n, first, t, gap, None);
            l.updateTimes == Times(n, t) && l.midHistory != [] && l.midHistory[0] == Mid(0, first)
  {
    if n > 0 {
      WholeHistory(n - 1, first, t, gap);
      assert Times(n, t) == Times(n - 1, t) + [t];
    } else {
      assert Times(0, t) == [0];
    }
  }

  lemma {:induction false} RingLength(n: nat, first: real, t: int, gap: int)
    ensures |FedLeg(n, first, t, gap, Some(RING)).updateTimes| <= RING
  {
    if n > 0 { RingLength(n - 1, first, t, gap); }
  }

  /** Without thinning, a ring holds the last n mids, up to 64, and the first one only while there is room. */
  function Kept(n: nat): seq<Mid> {
    if n < RING then [Mid(0, 0.0)] + Mids(n, 1.0) else Mids(RING, 1.0)
  }

  lemma {:induction false} KeptNext(n: nat)
    ensures Kept(n) != [] && Kept(n)[|Kept(n)| - 1].t == 0
    ensures Trim(Kept(n) + [Mid(0, 1.0)], Some(RING)) == Kept(n + 1)
  {
    var s := Kept(n) + [Mid(0, 1.0)];
    if n < RING {
      assert s == [Mid(0, 0.0)] + Mids(n + 1, 1.0);
      assert s[1..] == Mids(n + 1, 1.0);
    } else {
      assert s[1..] == Mids(RING, 1.0);
    }
  }

  lemma {:induction false} RingMids(n: nat)
    ensures FedLeg(n, 0.0, 0, 0, Some(RING)).midHistory == Kept(n)
  {
    hide Kept, Trim;
    if n > 0 {
      RingMids(n - 1);
      KeptNext(n - 1);
    } else {
      FirstKept();
      assert FedLeg(0, 0.0, 0, 0, Some(RING)).midHistory == Trim([] + [Mid(0, (0.0 + 0.0) / 2.0)], Some(RING));
      assert [] + [Mid(0, (0.0 + 0.0) / 2.0)] == [Mid(0, 0.0)];
    }
  }

  lemma {:induction false} FirstKept()
    ensures Kept(0) == [Mid(0, 0.0)] && Trim([Mid(0, 0.0)], Some(RING)) == [Mid(0, 0.0)]
  {
  }

  /** The whole history shows a jump once n reaches the spike's threshold ... */
  lemma {:induction false} WholeSpikes(n: nat, cfg: Config)
    requires Reachable(cfg) && n > 0 && n >= cfg.spikeMinUpdates
    ensures RecentSpike(FedLeg(n, 0.0, 0, MidGap(cfg), None), 0, cfg)
  {
    hide MidGap, FedLeg;
    var l := FedLeg(n, 0.0, 0, MidGap(cfg), None);
    FedQuote(n, 0.0, 0, MidGap(cfg), None);
    WholeHistory(n, 0.0, 0, MidGap(cfg));
    CountTimes(n, 0, 0 - cfg.spikeBurstMs);
    assert MidOf(l) == Some(1.0);
    assert l.midHistory[0] in l.midHistory && Jumped(1.0, l.midHistory[0], 0, cfg);
  }

  /** ... and a ring never does when a spike needs more updates or the first mid is gone. */
  lemma {:induction false} RingNeverSpikes(n: nat, cfg: Config, now: int)
    requires Reachable(cfg) && n >= RING && (cfg.spikeMinUpdates > RING || !Separable(cfg))
    ensures !RecentSpike(FedLeg(n, 0.0, 0, MidGap(cfg), Some(RING)), now, cfg)
  {
    hide FedLeg;
    var l := FedLeg(n, 0.0, 0, MidGap(cfg), Some(RING));
    FedQuote(n, 0.0, 0, MidGap(cfg), Some(RING));
    RingLength(n, 0.0, 0, MidGap(cfg));
    CountBound(l.updateTimes, now - cfg.spikeBurstMs);
    assert MidOf(l) == Some(1.0);
    if !Separable(cfg) {
      assert MidGap(cfg) == 0;
      RingMids(n);
      forall h | h in l.midHistory ensures !Jumped(1.0, h, now, cfg) {}
    }
  }

  lemma {:induction false} CalmMids(n: nat, t: int, gap: int, cap: Option<nat>)
    requires cap == None || cap == Some(RING)
    ensures forall h | h in FedLeg(n, 1.0, t, gap, cap).midHistory :: h.mid == 1.0
  {
    if n > 0 { CalmMids(n - 1, t, gap, cap); }
  }

  /** A leg that only ever quoted 1 never spikes. */
  lemma {:induction false} CalmLeg(n: nat, t: int, cap: Option<nat>, now: int, cfg: Config)
    requires Reachable(cfg) && (cap == None || cap == Some(RING))
    ensures !RecentSpike(FedLeg(n, 1.0, t, MidGap(cfg), cap), now, cfg)
  {
    hide MidGap, FedLeg;
    var l := FedLeg(n, 1.0, t, MidGap(cfg), cap);
    FedQuote(n, 1.0, t, MidGap(cfg), cap);
    CalmMids(n, t, MidGap(cfg), cap);
    forall h | h in l.midHistory ensures !Jumped(1.0, h, now, cfg) {}
  }

  /** Past 64, the whole history meets the activity threshold and a ring does not. */
  lemma {:induction false} OnlyWholeActive(n: nat, t: int, now: int, cfg: Config)
    requires n >= cfg.minUpdatesInActivityWindow > RING && now - cfg.activityWindowMs <= t
    ensures LegActive(FedLeg(n, 1.0, t, MidGap(cfg), None), now, cfg)
    ensures !LegActive(FedLeg(n, 1.0, t, MidGap(cfg), Some(RING)), now, cfg)
  {
    hide MidGap, FedLeg;
    FedQuote(n, 1.0, t, MidGap(cfg), None);
    FedQuote(n, 1.0, t, MidGap(cfg), Some(RING));
    WholeHistory(n, 1.0, t, MidGap(cfg));
    CountTimes(n, t, now - cfg.activityWindowMs);
    RingLength(n, 1.0, t, MidGap(cfg));
    CountBound(FedLeg(n, 1.0, t, MidGap(cfg), Some(RING)).updateTimes, now - cfg.activityWindowMs);
  }

  // ---------- What the detector fires ----------

  function Other(cap: Option<nat>, gap: int): Leg {
    Fed(NewLeg(), TickEvent(2, 0.0, 0.0, 0), gap, cap)
  }

  lemma {:induction false} OtherQuiet(cap: Option<nat>, now: int, cfg: Config)
    requires Reachable(cfg) && (cap == None || cap == Some(RING))
    ensures QuoteValid(Other(cap, MidGap(cfg))) && MidOf(Other(cap, MidGap(cfg))) == Some(0.0)
    ensures !RecentSpike(Other(cap, MidGap(cfg)), now, cfg)
    ensures Other(cap, MidGap(cfg)).bid == Some(0.0) && Other(cap, MidGap(cfg)).ask == Some(0.0)
  {
    hide MidGap;
    var l := Other(cap, MidGap(cfg));
    assert l.midHistory == [Mid(0, 0.0)];
    forall h | h in l.midHistory ensures !Jumped(0.0, h, now, cfg) {}
  }

  ghost predicate Breached(o: Obs, cfg: Config) {
    o.spread.Some? && o.spread.value.metric > Threshold(Equal, cfg) && !o.spikeB
  }

  /** Both legs quoted, a full dollar apart. */
  lemma {:induction false} Apart(n: nat, first: real, t: int, cap: Option<nat>, now: int, cfg: Config)
    requires Reachable(cfg) && (n > 0 || first == 1.0) && (cap == None || cap == Some(RING))
    ensures var a, b := FedLeg(n, first, t, MidGap(cfg), cap), Other(cap, MidGap(cfg));
            var o := Observe(Pair(Equal, 1, 2), a, b, now, cfg);
            Breached(o, cfg) && o.spikeA == RecentSpike(a, now, cfg) && o.activeA == LegActive(a, now, cfg)
  {
    hide MidGap, FedLeg, Other, RecentSpike, LegActive;
    FedQuote(n, first, t, MidGap(cfg), cap);
    OtherQuiet(cap, now, cfg);
    assert MidOf(FedLeg(n, first, t, MidGap(cfg), cap)) == Some(1.0);
  }

  lemma {:induction false} RecordedFlags(ep: Episode, now: int, sp: Spread, cfg: Config)
    ensures Recorded(ep, now, sp, cfg).startedAt == ep.startedAt && Recorded(ep, now, sp, cfg).fastPath == ep.fastPath
  {
  }

  /** An episode opened at 0 whose window is not over. */
  ghost predicate Waiting(m: Monitor, fast: bool) {
    m.state.Pending? && m.state.ep.startedAt == 0 && m.state.ep.fastPath == fast
  }

  lemma {:induction false} Opens(o: Obs, cfg: Config)
    requires Breached(o, cfg)
    ensures var r := Evaluate(NewMonitor(), Equal, 0, o, cfg); r.item.None? && Waiting(r.monitor, o.spikeA)
  {
    hide Recorded, Threshold;
    var fast := o.spikeA != o.spikeB;
    RecordedFlags(Episode(0, fast, if fast then Some(if o.spikeA then A else B)
                                                else None, [], cfg.minSampleGapMs, 0, false),
                  0, o.spread.value, cfg);
  }

  lemma {:induction false} StaysOpen(m: Monitor, now: int, o: Obs, cfg: Config)
    requires Waiting(m, false) && Breached(o, cfg) && !o.spikeA && now < cfg.persistenceWindowMs
    ensures Waiting(Evaluate(m, Equal, now, o, cfg).monitor, false)
  {
    hide Recorded, Threshold;
    RecordedFlags(m.state.ep, now, o.spread.value, cfg);
  }

  lemma {:induction false} Fires(m: Monitor, fast: bool, now: int, o: Obs, cfg: Config)
    requires Waiting(m, fast) && Breached(o, cfg) && (o.spikeA ==> fast)
    requires now >= if fast then cfg.fastWindowMs else cfg.persistenceWindowMs
    ensures var r := Evaluate(m, Equal, now, o, cfg);
            r.item.Some? && r.item.value.postSpike == fast && r.item.value.activeA == o.activeA
  {
    hide Recorded, Threshold;
    RecordedFlags(m.state.ep, now, o.spread.value, cfg);
  }

  ghost predicate FiresWith(r: Outcome, postSpike: bool, active: bool) {
    |r.items| == 1 && r.items[0].1.postSpike == postSpike && r.items[0].1.activeA == active
  }

  lemma {:induction false} OpeningTick(d: Detector, a: Leg, cfg: Config, cap: Option<nat>)
    requires d == Detector(map[1 := a, 2 := NewLeg()], [NewMonitor()])
    ensures Fits(d, OnePair())
    ensures var b := Other(cap, MidGap(cfg));
            Step(d, OnePair(), Quote(2, 0.0, 0), cfg, cap).d ==
            Detector(map[1 := a, 2 := b], [Evaluate(NewMonitor(), Equal, 0, Observe(Pair(Equal, 1, 2), a, b, 0, cfg),
                                                    cfg).monitor])
  {
    hide MidGap, Fed, Observe, Evaluate, Step;
    var b := Other(cap, MidGap(cfg));
    assert d.legs.Keys == {1, 2};
    OneTick(d, TickEvent(2, 0.0, 0.0, 0), cfg, cap);
    assert d.legs[2 := b] == map[1 := a, 2 := b];
  }

  lemma {:induction false} BusyOne(m: Monitor)
    requires !m.state.Idle?
    ensures Busy([m]) == [0]
  {
    assert [m][..0] == [];
  }

  lemma {:induction false} FiringSweep(d: Detector, a: Leg, b: Leg, fast: bool, end: int, cfg: Config, cap: Option<nat>)
    requires d.legs == map[1 := a, 2 := b] && |d.monitors| == 1 && Waiting(d.monitors[0], fast)
    requires end >= if fast then cfg.fastWindowMs else cfg.persistenceWindowMs
    requires var o := Observe(Pair(Equal, 1, 2), a, b, end, cfg); Breached(o, cfg) && (o.spikeA ==> fast)
    ensures Fits(d, OnePair())
    ensures FiresWith(Step(d, OnePair(), Sweep(end), cfg, cap), fast,
                      Observe(Pair(Equal, 1, 2), a, b, end, cfg).activeA)
  {
    hide Observe, Evaluate, EvaluateList, Busy, Breached;
    assert d.legs.Keys == {1, 2};
    assert d.monitors == [d.monitors[0]];
    OnlyMonitor(d, end, cfg);
    BusyOne(d.monitors[0]);
    Fires(d.monitors[0], fast, end, Observe(Pair(Equal, 1, 2), a, b, end, cfg), cfg);
  }

  /** The end of a burst: the pair opens on market 2's quote, as a spike if leg 1 shows one, and the sweep fires it. */
  lemma {:induction false} BurstFires(n: nat, first: real, end: int, cfg: Config, cap: Option<nat>)
    requires Reachable(cfg) && (n > 0 || first == 1.0) && 0.0 <= first <= 1.0 && (cap == None || cap == Some(RING))
    requires var a := FedLeg(n, first, 0, MidGap(cfg), cap);
             && (RecentSpike(a, 0, cfg) || !RecentSpike(a, end, cfg))
             && end >= if RecentSpike(a, 0, cfg) then cfg.fastWindowMs else cfg.persistenceWindowMs
    ensures var a := FedLeg(n, first, 0, MidGap(cfg), cap);
            FiresWith(After(OnePair(), Burst(n, first, end), n + 3, cfg, cap), RecentSpike(a, 0, cfg),
                      LegActive(a, end, cfg))
  {
    hide MidGap, FedLeg, Other, RecentSpike, LegActive, Evaluate, Observe, Fed, Reachable, Breached, FiresWith;
    var es, gap := Burst(n, first, end), MidGap(cfg);
    var a, b := FedLeg(n, first, 0, gap, cap), Other(cap, gap);
    BurstFed(n, first, end, cfg, cap, n);
    Apart(n, first, 0, cap, 0, cfg);
    Apart(n, first, 0, cap, end, cfg);
    Opens(Observe(Pair(Equal, 1, 2), a, b, 0, cfg), cfg);
    assert es[n + 1] == Quote(2, 0.0, 0) && es[n + 2] == Sweep(end);
    OpeningTick(After(OnePair(), es, n + 1, cfg, cap).d, a, cfg, cap);
    FiringSweep(After(OnePair(), es, n + 2, cfg, cap).d, a, b, RecentSpike(a, 0, cfg), end, cfg, cap);
  }

  // ---------- The late run ----------

  lemma {:induction false} LateOpens(n: nat, end: int, cfg: Config, cap: Option<nat>)
    requires Reachable(cfg) && (cap == None || cap == Some(RING))
    ensures LateState(After(OnePair(), Late(n, end), 2, cfg, cap).d, 0, end, cfg, cap)
  {
    hide MidGap, FedLeg, Other, RecentSpike, LegActive, Evaluate, Observe, Fed, Reachable, Breached;
    var es, gap := Late(n, end), MidGap(cfg);
    StartOf();
    assert es[0] == Quote(1, 1.0, 0) && es[1] == Quote(2, 0.0, 0);
    assert After(OnePair(), es, 0, cfg, cap).d == Start(OnePair());
    QuietTick(Start(OnePair()), TickEvent(1, 1.0, 1.0, 0), cfg, cap);
    LateFirst(end, gap, cap);
    var a := FedLeg(0, 1.0, end - 1, gap, cap);
    assert After(OnePair(), es, 1, cfg, cap).d == Detector(map[1 := a, 2 := NewLeg()], [NewMonitor()]);
    OpeningTick(After(OnePair(), es, 1, cfg, cap).d, a, cfg, cap);
    Apart(0, 1.0, end - 1, cap, 0, cfg);
    CalmLeg(0, end - 1, cap, 0, cfg);
    Opens(Observe(Pair(Equal, 1, 2), a, Other(cap, gap), 0, cfg), cfg);
  }

  lemma {:induction false} LateFirst(end: int, gap: int, cap: Option<nat>)
    ensures FedLeg(0, 1.0, end - 1, gap, cap) == Fed(NewLeg(), TickEvent(1, 1.0, 1.0, 0), gap, cap)
  {
  }

  ghost predicate LateState(d: Detector, k: nat, end: int, cfg: Config, cap: Option<nat>) {
    && d.legs == map[1 := FedLeg(k, 1.0, end - 1, MidGap(cfg), cap), 2 := Other(cap, MidGap(cfg))]
    && |d.monitors| == 1 && Waiting(d.monitors[0], false)
  }

  /** One more quote before the window is over. */
  lemma {:induction false} LateTick(d: Detector, k: nat, end: int, cfg: Config, cap: Option<nat>)
    requires LateState(d, k, end, cfg, cap) && Reachable(cfg) && end == cfg.persistenceWindowMs &&
             (cap == None || cap == Some(RING))
    ensures Fits(d, OnePair()) && LateState(Step(d, OnePair(), Quote(1, 1.0, end - 1), cfg, cap).d, k + 1, end, cfg,
                                            cap)
  {
    hide MidGap, Other, RecentSpike, LegActive, Evaluate, Observe, Fed, Reachable, Breached, Step;
    var e, gap := TickEvent(1, 1.0, 1.0, end - 1), MidGap(cfg);
    assert d.legs.Keys == {1, 2};
    OneTick(d, e, cfg, cap);
    var a, b := FedLeg(k + 1, 1.0, end - 1, gap, cap), Other(cap, gap);
    assert d.legs[1 := Fed(d.legs[1], e, gap, cap)] == map[1 := a, 2 := b];
    Apart(k + 1, 1.0, end - 1, cap, end - 1, cfg);
    CalmLeg(k + 1, end - 1, cap, end - 1, cfg);
    StaysOpen(d.monitors[0], end - 1, Observe(Pair(Equal, 1, 2), a, b, end - 1, cfg), cfg);
  }

  lemma {:induction false} LateFed(n: nat, end: int, cfg: Config, cap: Option<nat>, k: nat)
    requires k <= n && Reachable(cfg) && end == cfg.persistenceWindowMs && (cap == None || cap == Some(RING))
    ensures LateState(After(OnePair(), Late(n, end), k + 2, cfg, cap).d, k, end, cfg, cap)
  {
    hide Step, LateState, Reachable;
    if k == 0 {
      LateOpens(n, end, cfg, cap);
    } else {
      LateFed(n, end, cfg, cap, k - 1);
      assert Late(n, end)[k + 1] == Quote(1, 1.0, end - 1);
      LateTick(After(OnePair(), Late(n, end), k + 1, cfg, cap).d, k - 1, end, cfg, cap);
    }
  }

  lemma {:induction false} LastStep(es: seq<Event>, k: nat, cfg: Config, cap: Option<nat>)
    requires k < |es|
    ensures After(OnePair(), es, k + 1, cfg, cap) ==
              Step(After(OnePair(), es, k, cfg, cap).d, OnePair(), es[k], cfg, cap)
  {
  }

  lemma {:induction false} LateFires(n: nat, end: int, cfg: Config, cap: Option<nat>)
    requires Reachable(cfg) && end == cfg.persistenceWindowMs && (cap == None || cap == Some(RING))
    ensures FiresWith(After(OnePair(), Late(n, end), n + 3, cfg, cap), false,
                      LegActive(FedLeg(n, 1.0, end - 1, MidGap(cfg), cap), end, cfg))
  {
    hide MidGap, FedLeg, Other, RecentSpike, LegActive, Observe, Reachable, Breached, FiresWith, After, Step;
    var es := Late(n, end);
    var a, b := FedLeg(n, 1.0, end - 1, MidGap(cfg), cap), Other(cap, MidGap(cfg));
    LateFed(n, end, cfg, cap, n);
    assert es[n + 2] == Sweep(end);
    Apart(n, 1.0, end - 1, cap, end, cfg);
    CalmLeg(n, end - 1, cap, end, cfg);
    LastStep(es, n + 2, cfg, cap);
    FiringSweep(After(OnePair(), es, n + 2, cfg, cap).d, a, b, false, end, cfg, cap);
  }

  // ---------- The exact condition ----------

  ghost predicate RingsEnough(cfg: Config) {
    forall pairs: seq<Pair>, es: seq<Event>, k: nat, start: int ::
      k <= |es| && NeverBack(es, start) ==>
        After(pairs, es, k, cfg, Some(RING)).items == After(pairs, es, k, cfg, None).items
  }

  ghost predicate TellsApart(es: seq<Event>, cfg: Config) {
    NeverBack(es, 0) && After(OnePair(), es, |es|, cfg, Some(RING)).items != After(OnePair(), es, |es|, cfg, None).items
  }

  lemma {:induction false} FiresDiffer(r: Outcome, r': Outcome, p: bool, p': bool, a: bool, a': bool)
    requires FiresWith(r, p, a) && FiresWith(r', p', a') && (p != p' || a != a')
    ensures r.items != r'.items
  {
  }

  /** With the whole history the alert is post-spike, with rings it is not. */
  lemma {:induction false} SpikeTellsApart(n: nat, cfg: Config)
    requires Reachable(cfg) && (cfg.spikeMinUpdates > RING || !Separable(cfg)) && n >= RING && n >= cfg.spikeMinUpdates
    ensures TellsApart(Burst(n, 0.0, Deadline(cfg)), cfg)
  {
    hide Reachable, MidGap, FedLeg, After, RecentSpike, LegActive, Separable, FiresWith;
    var end := Deadline(cfg);
    var es := Burst(n, 0.0, end);
    assert |es| == n + 3;
    BurstNeverBack(n, 0.0, end);
    var a, b := FedLeg(n, 0.0, 0, MidGap(cfg), None), FedLeg(n, 0.0, 0, MidGap(cfg), Some(RING));
    WholeSpikes(n, cfg);
    RingNeverSpikes(n, cfg, 0);
    RingNeverSpikes(n, cfg, end);
    BurstFires(n, 0.0, end, cfg, None);
    BurstFires(n, 0.0, end, cfg, Some(RING));
    FiresDiffer(After(OnePair(), es, n + 3, cfg, Some(RING)), After(OnePair(), es, n + 3, cfg, None),
                false, true, LegActive(b, end, cfg), LegActive(a, end, cfg));
  }

  /** With the whole history leg 1 counts as active when the alert fires, with rings it does not. */
  lemma {:induction false} LateTellsApart(n: nat, cfg: Config)
    requires Reachable(cfg) && cfg.persistenceWindowMs > 0 && n >= cfg.minUpdatesInActivityWindow > RING
    ensures TellsApart(Late(n, cfg.persistenceWindowMs), cfg)
  {
    hide MidGap, FedLeg, After, RecentSpike, LegActive, FiresWith;
    var end := cfg.persistenceWindowMs;
    assert |Late(n, end)| == n + 3;
    LateNeverBack(n, end);
    OnlyWholeActive(n, end - 1, end, cfg);
    LateFires(n, end, cfg, None);
    LateFires(n, end, cfg, Some(RING));
    FiresDiffer(After(OnePair(), Late(n, end), n + 3, cfg, Some(RING)),
                After(OnePair(), Late(n, end), n + 3, cfg, None),
                false, false, false, true);
  }

  /** The same when an alert needs no waiting at all. */
  lemma {:induction false} AtOnceTellsApart(n: nat, cfg: Config)
    requires Reachable(cfg) && cfg.persistenceWindowMs <= 0 && n >= cfg.minUpdatesInActivityWindow > RING
    ensures TellsApart(Burst(n, 1.0, 0), cfg)
  {
    hide MidGap, FedLeg, After, RecentSpike, LegActive, FiresWith;
    var es := Burst(n, 1.0, 0);
    assert |es| == n + 3;
    BurstNeverBack(n, 1.0, 0);
    CalmLeg(n, 0, None, 0, cfg);
    CalmLeg(n, 0, Some(RING), 0, cfg);
    OnlyWholeActive(n, 0, 0, cfg);
    BurstFires(n, 1.0, 0, cfg, None);
    BurstFires(n, 1.0, 0, cfg, Some(RING));
    FiresDiffer(After(OnePair(), es, n + 3, cfg, Some(RING)), After(OnePair(), es, n + 3, cfg, None), false, false,
                false, true);
  }

  /** Whenever a condition fails, some run fires an item with rings that differs from the one fired with the whole
      history: the leg looks inactive, or the alert no longer post-spike. */
  lemma {:induction false} SomeRunTellsApart(cfg: Config) returns (es: seq<Event>)
    requires Reachable(cfg) && !WithinRings(cfg)
    ensures TellsApart(es, cfg)
  {
    hide Reachable, TellsApart, Separable;
    if cfg.spikeMinUpdates > RING || !Separable(cfg) {
      var n := if cfg.spikeMinUpdates > RING then cfg.spikeMinUpdates else RING;
      es := Burst(n, 0.0, Deadline(cfg));
      SpikeTellsApart(n, cfg);
    } else if cfg.persistenceWindowMs > 0 {
      es := Late(cfg.minUpdatesInActivityWindow, cfg.persistenceWindowMs);
      LateTellsApart(cfg.minUpdatesInActivityWindow, cfg);
    } else {
      es := Burst(cfg.minUpdatesInActivityWindow, 1.0, 0);
      AtOnceTellsApart(cfg.minUpdatesInActivityWindow, cfg);
    }
  }

  /** Exactly when the rings lose nothing: on every configuration a $0..1 book can exercise, the detector with rings
      fires the same items as the one with the whole history on all runs whose times never go back, if and only if
      both thresholds are at most 64 and mids are thinned or the burst window is open. */
  lemma {:induction false} RingsEnoughIff(cfg: Config)
    requires Reachable(cfg)
    ensures RingsEnough(cfg) <==> WithinRings(cfg)
  {
    hide WithinRings, Reachable, After, NeverBack;
    if WithinRings(cfg) {
      forall pairs: seq<Pair>, es: seq<Event>, k: nat, start: int | k <= |es| && NeverBack(es, start)
        ensures After(pairs, es, k, cfg, Some(RING)).items == After(pairs, es, k, cfg, None).items
      {
        RingsLoseNothing(pairs, es, k, start, cfg);
      }
    } else {
      var es := SomeRunTellsApart(cfg);
    }
  }

  /** The configuration the service ships with: `DEFAULT_SENTINEL_CONFIG` of
      services/arb-solver/src/sentinel/types.ts, lines 66-83. */
  function ShippedConfig(): Config {
    Config(0.05, 0.03, 0.02, false, 60 * 60000, 10 * 60000, 0.5, 30 * 60000, 2, 5 * 60000, 0.1, 3, 1000, 512)
  }

  /** It is one of those configurations, and stays within its rings with either threshold raised up to 64, no
      further. */
  lemma {:induction false} ShippedLimits(updates: int, spikes: int)
    ensures var cfg := ShippedConfig().(minUpdatesInActivityWindow := updates, spikeMinUpdates := spikes);
            RingsEnough(cfg) <==> updates <= RING && spikes <= RING
  {
    hide RingsEnough;
    var cfg := ShippedConfig().(minUpdatesInActivityWindow := updates, spikeMinUpdates := spikes);
    RingsEnoughIff(cfg);
  }
}
