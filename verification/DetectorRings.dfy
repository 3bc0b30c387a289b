/** The 64-entry rings against the whole history: with event times that never go back, a detector with rings fires
    exactly what one that forgets nothing fires. */
module DetectorRings {
  import opened Wrappers
  import opened Graph
  import opened Detector

  /** `ring` is the end of `full`, and all of it unless the ring is full. */
  ghost predicate EndOf<A>(ring: seq<A>, full: seq<A>) {
    |ring| <= |full| && ring == full[|full| - |ring|..] && (|ring| < RING ==> ring == full) && |ring| <= RING
  }

  lemma {:induction false} TrimKeepsEnd<A>(ring: seq<A>, full: seq<A>, x: A)
    requires EndOf(ring, full)
    ensures EndOf(Trim(ring + [x], Some(RING)), Trim(full + [x], None))
  {
    var a, b := Trim(ring + [x], Some(RING)), full + [x];
    assert full + [x] == full[..|full| - |ring|] + (ring + [x]);
    if |ring| == RING {
      assert a == ring[1..] + [x];
      assert b[|b| - |a|..] == full[|full| - |ring| + 1..] + [x];
    }
  }

  /** Counting back from the newest sees the same up to the ring's length. */
  lemma {:induction false} CountAgrees(ring: seq<int>, full: seq<int>, cutoff: int, k: int)
    requires EndOf(ring, full) && k <= RING
    ensures CountSince(ring, cutoff) >= k <==> CountSince(full, cutoff) >= k
  {
    CountSuffix(ring, full, cutoff);
    CountBound(ring, cutoff);
  }

  lemma {:induction false} CountBound(s: seq<int>, cutoff: int)
    ensures CountSince(s, cutoff) <= |s|
  {
    if s != [] { CountBound(s[..|s| - 1], cutoff); }
  }

  lemma {:induction false} CountSuffix(ring: seq<int>, full: seq<int>, cutoff: int)
    requires |ring| <= |full| && ring == full[|full| - |ring|..]
    ensures CountSince(full, cutoff) >= CountSince(ring, cutoff)
    ensures CountSince(ring, cutoff) < |ring| ==> CountSince(full, cutoff) == CountSince(ring, cutoff)
  {
    if ring != [] {
      var m := |ring| - 1;
      assert ring[m] == full[|full| - 1];
      assert ring[..m] == full[..|full| - 1][|full| - 1 - m..];
      CountSuffix(ring[..m], full[..|full| - 1], cutoff);
    }
  }

  // ---------- Mid history ----------

  /** Consecutive mids are at least `gap` apart and never go back; none is later than `last`. */
  ghost predicate Spaced(mids: seq<Mid>, gap: int, last: int) {
    && (forall i :: 0 <= i < |mids| ==> mids[i].t <= last)
    && (forall i :: 0 < i < |mids| ==> mids[i].t - mids[i - 1].t >= gap && mids[i].t >= mids[i - 1].t)
  }

  lemma {:induction false} SpacedApart(mids: seq<Mid>, gap: int, last: int, i: nat, j: nat)
    requires Spaced(mids, gap, last) && i <= j < |mids|
    ensures mids[j].t - mids[i].t >= gap * (j - i) && mids[j].t >= mids[i].t
    decreases j - i
  {
    if i < j {
      SpacedApart(mids, gap, last, i, j - 1);
      Distributes(gap, j - 1 - i);
    }
  }

  lemma {:induction false} Distributes(gap: int, n: nat)
    ensures gap * (n + 1) == gap * n + gap
  {
  }

  /** The ring spans twice the burst window, so what it forgot can no longer show a spike. */
  lemma {:induction false} GapSpansBurst(cfg: Config)
    ensures 64 * MidGap(cfg) >= 2 * cfg.spikeBurstMs
  {
  }

  /** A burst window of 0 with a gap of 0 would let 64 simultaneous mids push out a 65th that still counts. */
  predicate Separable(cfg: Config) {
    cfg.spikeBurstMs != 0 || MidGap(cfg) > 0
  }

  lemma {:induction false} ForgottenIsOld(mids: seq<Mid>, last: int, now: int, cfg: Config, i: nat)
    requires Spaced(mids, MidGap(cfg), last) && last <= now && Separable(cfg) && i + RING < |mids|
    ensures now - mids[i].t > cfg.spikeBurstMs
  {
    hide MidGap, CeilDiv;
    GapSpansBurst(cfg);
    SpacedApart(mids, MidGap(cfg), last, i, i + RING);
    SpacedApart(mids, MidGap(cfg), last, i + RING, |mids| - 1);
  }

  lemma {:induction false} SpikeAgrees(ring: seq<Mid>, full: seq<Mid>, last: int, now: int, mid: real, cfg: Config)
    requires EndOf(ring, full) && Spaced(full, MidGap(cfg), last) && last <= now && Separable(cfg)
    ensures (exists h | h in ring :: Jumped(mid, h, now, cfg)) <==> (exists h | h in full :: Jumped(mid, h, now, cfg))
  {
    hide MidGap, Spaced, Separable;
    if h :| h in full && Jumped(mid, h, now, cfg) {
      var i :| 0 <= i < |full| && full[i] == h;
      if i + RING < |full| {
        ForgottenIsOld(full, last, now, cfg, i);
      } else {
        assert ring[i - (|full| - |ring|)] == h;
      }
    }
  }

  // ---------- Legs ----------

  /** Two legs fed the same ticks, one with rings and one without; the last tick was at `last` or before. */
  ghost predicate SameLeg(ring: Leg, full: Leg, last: int, cfg: Config) {
    && ring.bid == full.bid && ring.ask == full.ask && ring.lastUpdateAt == full.lastUpdateAt &&
       ring.staleFlagged == full.staleFlagged
    && EndOf(ring.updateTimes, full.updateTimes) && EndOf(ring.midHistory, full.midHistory)
    && Spaced(full.midHistory, MidGap(cfg), last)
  }

  lemma {:induction false} LastMid(ring: seq<Mid>, full: seq<Mid>)
    requires EndOf(ring, full)
    ensures (ring == [] <==> full == []) && (ring != [] ==> ring[|ring| - 1] == full[|full| - 1])
  {
  }

  lemma {:induction false} FedSame(ring: Leg, full: Leg, last: int, e: TickEvent, cfg: Config)
    requires SameLeg(ring, full, last, cfg) && last <= e.t
    ensures SameLeg(Fed(ring, e, MidGap(cfg), Some(RING)), Fed(full, e, MidGap(cfg), None), e.t, cfg)
  {
    hide MidGap, EndOf, Trim;
    TrimKeepsEnd(ring.updateTimes, full.updateTimes, e.t);
    FedMidsSame(ring.midHistory, full.midHistory, last, e, MidGap(cfg));
  }

  lemma {:induction false} FedMidsSame(ring: seq<Mid>, full: seq<Mid>, last: int, e: TickEvent, gap: int)
    requires EndOf(ring, full) && Spaced(full, gap, last) && last <= e.t
    ensures EndOf(FedMids(ring, e, gap, Some(RING)), FedMids(full, e, gap, None))
    ensures Spaced(FedMids(full, e, gap, None), gap, e.t)
  {
    hide EndOf, Spaced;
    LastMid(ring, full);
    TrimKeepsEnd(ring, full, Mid(e.t, (e.bid + e.ask) / 2.0));
    SpacedPush(full, gap, last, Mid(e.t, (e.bid + e.ask) / 2.0));
  }

  lemma {:induction false} SpacedPush(mids: seq<Mid>, gap: int, last: int, m: Mid)
    requires Spaced(mids, gap, last) && last <= m.t
    ensures Spaced(mids, gap, m.t)
    ensures mids == [] || m.t - mids[|mids| - 1].t >= gap ==> Spaced(mids + [m], gap, m.t)
  {
  }

  /** Update-count thresholds the rings can still reach. */
  predicate WithinRings(cfg: Config) {
    cfg.minUpdatesInActivityWindow <= RING && cfg.spikeMinUpdates <= RING && Separable(cfg)
  }

  lemma {:induction false} SameSpike(ring: Leg, full: Leg, last: int, now: int, cfg: Config)
    requires SameLeg(ring, full, last, cfg) && last <= now && WithinRings(cfg)
    ensures RecentSpike(ring, now, cfg) == RecentSpike(full, now, cfg) &&
            LegActive(ring, now, cfg) == LegActive(full, now, cfg)
  {
    hide EndOf, Spaced, MidGap, CountSince, Jumped;
    CountAgrees(ring.updateTimes, full.updateTimes, now - cfg.spikeBurstMs, cfg.spikeMinUpdates);
    CountAgrees(ring.updateTimes, full.updateTimes, now - cfg.activityWindowMs, cfg.minUpdatesInActivityWindow);
    if MidOf(full).Some? { SpikeAgrees(ring.midHistory, full.midHistory, last, now, MidOf(full).value, cfg); }
  }

  lemma {:induction false} SameObservation(pair: Pair, a: Leg, b: Leg, a': Leg, b': Leg, last: int, now: int,
                                           cfg: Config)
    requires SameLeg(a, a', last, cfg) && SameLeg(b, b', last, cfg) && last <= now && WithinRings(cfg)
    ensures Observe(pair, a, b, now, cfg) == Observe(pair, a', b', now, cfg)
  {
    hide RecentSpike, LegActive, EndOf, Spaced;
    SameSpike(a, a', last, now, cfg);
    SameSpike(b, b', last, now, cfg);
  }

  // ---------- Detectors ----------

  ghost predicate Tracks(ring: Detector, full: Detector, pairs: seq<Pair>, last: int, cfg: Config) {
    && Fits(ring, pairs) && Fits(full, pairs) && ring.monitors == full.monitors
    && forall m :: m in full.legs ==> SameLeg(ring.legs[m], full.legs[m], last, cfg)
  }

  lemma {:induction false} EvaluateSame(x: Outcome, y: Outcome, pairs: seq<Pair>, i: nat, last: int, now: int,
                                        cfg: Config)
    requires Tracks(x.d, y.d, pairs, last, cfg) && x.items == y.items && i < |pairs| && last <= now && WithinRings(cfg)
    ensures Tracks(EvaluateAt(x, pairs, i, now, cfg).d, EvaluateAt(y, pairs, i, now, cfg).d, pairs, last, cfg)
    ensures EvaluateAt(x, pairs, i, now, cfg).items == EvaluateAt(y, pairs, i, now, cfg).items
  {
    hide SameLeg, Observe, Evaluate, WithinRings;
    LegsThere(x.d, pairs, i);
    LegsThere(y.d, pairs, i);
    SameObservation(pairs[i], x.d.legs[pairs[i].a], x.d.legs[pairs[i].b], y.d.legs[pairs[i].a], y.d.legs[pairs[i].b],
                    last, now, cfg);
  }

  lemma {:induction false} EvaluateListSame(x: Detector, y: Detector, pairs: seq<Pair>, list: seq<nat>, last: int,
                                            now: int, cfg: Config)
    requires Tracks(x, y, pairs, last, cfg) && (forall k :: 0 <= k < |list| ==> list[k] < |pairs|) && last <= now &&
             WithinRings(cfg)
    ensures var a, b := EvaluateList(x, pairs, list, now, cfg), EvaluateList(y, pairs, list, now, cfg);
            Tracks(a.d, b.d, pairs, last, cfg) && a.items == b.items
  {
    hide Tracks, EvaluateAt, WithinRings;
    TracksFits(x, y, pairs, last, cfg);
    if list != [] {
      var m := |list| - 1;
      EvaluateListSame(x, y, pairs, list[..m], last, now, cfg);
      EvaluateSame(EvaluateList(x, pairs, list[..m], now, cfg), EvaluateList(y, pairs, list[..m], now, cfg), pairs,
                   list[m], last, now, cfg);
    }
  }

  lemma {:induction false} TracksFits(x: Detector, y: Detector, pairs: seq<Pair>, last: int, cfg: Config)
    requires Tracks(x, y, pairs, last, cfg)
    ensures Fits(x, pairs) && Fits(y, pairs) && x.monitors == y.monitors && x.legs.Keys == y.legs.Keys
  {
  }

  /** Time of an event; flagging legs stale has none. */
  function TimeOf(e: Event, last: int): int {
    match e
    case OnTick(t) => t.t
    case MarkStale(_) => last
    case Sweep(now) => now
  }

  lemma {:induction false} Later(ring: Leg, full: Leg, last: int, now: int, cfg: Config)
    requires SameLeg(ring, full, last, cfg) && last <= now
    ensures SameLeg(ring, full, now, cfg)
  {
  }

  lemma {:induction false} TracksLater(x: Detector, y: Detector, pairs: seq<Pair>, last: int, now: int, cfg: Config)
    requires Tracks(x, y, pairs, last, cfg) && last <= now
    ensures Tracks(x, y, pairs, now, cfg)
  {
    hide SameLeg;
    forall m | m in y.legs ensures SameLeg(x.legs[m], y.legs[m], now, cfg) {
      Later(x.legs[m], y.legs[m], last, now, cfg);
    }
  }

  lemma {:induction false} TickFeedsSame(x: Detector, y: Detector, pairs: seq<Pair>, last: int, t: TickEvent,
                                         cfg: Config)
    requires Tracks(x, y, pairs, last, cfg) && t.market in x.legs && last <= t.t
    ensures t.market in y.legs
    ensures Tracks(x.(legs := x.legs[t.market := Fed(x.legs[t.market], t, MidGap(cfg), Some(RING))]),
                   y.(legs := y.legs[t.market := Fed(y.legs[t.market], t, MidGap(cfg), None)]), pairs, t.t, cfg)
  {
    hide SameLeg, Fed;
    FedSame(x.legs[t.market], y.legs[t.market], last, t, cfg);
    forall m | m in y.legs ensures SameLeg(x.legs[m], y.legs[m], t.t, cfg) {
      Later(x.legs[m], y.legs[m], last, t.t, cfg);
    }
  }

  lemma {:induction false} FlagSame(x: Detector, y: Detector, pairs: seq<Pair>, last: int, markets: set<int>,
                                    cfg: Config)
    requires Tracks(x, y, pairs, last, cfg)
    ensures Tracks(x.(legs := Flagged(x.legs, markets)), y.(legs := Flagged(y.legs, markets)), pairs, last, cfg)
  {
    hide EndOf, Spaced;
  }

  lemma {:induction false} StepSame(x: Detector, y: Detector, pairs: seq<Pair>, last: int, e: Event, cfg: Config)
    requires Tracks(x, y, pairs, last, cfg) && last <= TimeOf(e, last) && WithinRings(cfg)
    ensures Fits(x, pairs) && Fits(y, pairs)
    ensures var a, b := Step(x, pairs, e, cfg, Some(RING)), Step(y, pairs, e, cfg, None);
            Tracks(a.d, b.d, pairs, TimeOf(e, last), cfg) && a.items == b.items
  {
    hide Tracks, EvaluateList, WithinRings, Watchers, Busy, Flagged, Fed;
    TracksFits(x, y, pairs, last, cfg);
    match e
    case OnTick(t) =>
      if t.market in x.legs && IsBook(t) {
        TickFeedsSame(x, y, pairs, last, t, cfg);
        var a := x.(legs := x.legs[t.market := Fed(x.legs[t.market], t, MidGap(cfg), Some(RING))]);
        var b := y.(legs := y.legs[t.market := Fed(y.legs[t.market], t, MidGap(cfg), None)]);
        EvaluateListSame(a, b, pairs, Watchers(pairs, t.market), t.t, t.t, cfg);
      } else {
        TracksLater(x, y, pairs, last, t.t, cfg);
      }
    case MarkStale(markets) =>
      FlagSame(x, y, pairs, last, markets, cfg);
    case Sweep(now) =>
      TracksLater(x, y, pairs, last, now, cfg);
      EvaluateListSame(x, y, pairs, Busy(x.monitors), now, now, cfg);
  }

  /** The detector after a prefix of events, and what its last event fired. */
  function After(pairs: seq<Pair>, es: seq<Event>, k: nat, cfg: Config, cap: Option<nat>): (r: Outcome)
    requires k <= |es|
    ensures Fits(r.d, pairs)
  {
    if k == 0 then Outcome(Start(pairs), []) else Step(After(pairs, es, k - 1, cfg, cap).d, pairs, es[k - 1], cfg, cap)
  }

  function Clock(es: seq<Event>, k: nat, start: int): int
    requires k <= |es|
  {
    if k == 0 then start else TimeOf(es[k - 1], Clock(es, k - 1, start))
  }

  ghost predicate NeverBack(es: seq<Event>, start: int) {
    forall k :: 0 <= k < |es| ==> Clock(es, k, start) <= TimeOf(es[k], Clock(es, k, start))
  }

  lemma {:induction false} StartTracks(pairs: seq<Pair>, start: int, cfg: Config)
    ensures Tracks(Start(pairs), Start(pairs), pairs, start, cfg)
  {
  }

  lemma {:induction false} RunTracks(pairs: seq<Pair>, es: seq<Event>, k: nat, start: int, cfg: Config)
    requires k <= |es| && NeverBack(es, start) && WithinRings(cfg)
    ensures Tracks(After(pairs, es, k, cfg, Some(RING)).d, After(pairs, es, k, cfg, None).d, pairs, Clock(es, k, start),
                   cfg)
    ensures After(pairs, es, k, cfg, Some(RING)).items == After(pairs, es, k, cfg, None).items
  {
    hide Tracks, Step, WithinRings, Start;
    if k == 0 {
      StartTracks(pairs, start, cfg);
    } else {
      RunTracks(pairs, es, k - 1, start, cfg);
      StepSame(After(pairs, es, k - 1, cfg, Some(RING)).d, After(pairs, es, k - 1, cfg, None).d, pairs,
               Clock(es, k - 1, start), es[k - 1], cfg);
    }
  }

  /** Bounded buffers lose nothing. With event times that never go back and update-count thresholds of at most
      64, after every event of every run the detector with rings has fired the same items, and its monitors are
      in the same states, as the detector that keeps the whole (equally thinned) history. */
  lemma {:induction false} RingsLoseNothing(pairs: seq<Pair>, es: seq<Event>, k: nat, start: int, cfg: Config)
    requires k <= |es| && NeverBack(es, start) && WithinRings(cfg)
    ensures After(pairs, es, k, cfg, Some(RING)).items == After(pairs, es, k, cfg, None).items
    ensures After(pairs, es, k, cfg, Some(RING)).d.monitors == After(pairs, es, k, cfg, None).d.monitors
  {
    hide After, Tracks;
    RunTracks(pairs, es, k, start, cfg);
    TracksFits(After(pairs, es, k, cfg, Some(RING)).d, After(pairs, es, k, cfg, None).d, pairs, Clock(es, k, start),
               cfg);
  }
}
