/** What a pair's spread, a leg's activity and a leg's spike say about bids, asks and update times
    (services/arb-solver/src/sentinel/detector.ts, lines 66-152 and 385-413). */
module DetectorSpreads {
  import opened Wrappers
  import opened Graph
  import opened Detector

  /** A live $0..1 book. */
  predicate Live(l: Leg) {
    && !l.staleFlagged && l.lastUpdateAt.Some? && l.bid.Some? && l.ask.Some?
    && 0.0 <= l.bid.value <= 1.0 && 0.0 <= l.ask.value <= 1.0
  }

  predicate BothLive(a: Leg, b: Leg) {
    Live(a) && Live(b)
  }

  /** A pair can be measured exactly when both legs are live. */
  lemma {:induction false} MeasuredIff(pair: Pair, a: Leg, b: Leg, cfg: Config)
    ensures PairSpread(pair, a, b, cfg).Some? <==> BothLive(a, b)
  {
  }

  /** A mutex pair is above a threshold exactly when its two mids together exceed 1 by the fee allowance and the
      threshold; it has no other sign. */
  lemma {:induction false} MutexAbove(pair: Pair, a: Leg, b: Leg, cfg: Config, t: real)
    requires pair.mode.Mutex? && BothLive(a, b) && t >= 0.0
    ensures PairSpread(pair, a, b, cfg).value.metric > t <==>
              (a.bid.value + a.ask.value + b.bid.value + b.ask.value) / 2.0 > 1.0 + cfg.mutexFeeAllowance + t
    ensures PairSpread(pair, a, b, cfg).value.signed == PairSpread(pair, a, b, cfg).value.metric >= 0.0
  {
  }

  /** An equal pair is above a threshold exactly when its mids are that far apart, or, on crossable prices, when one
      leg bids that much over the other's ask. */
  lemma {:induction false} EqualAbove(pair: Pair, a: Leg, b: Leg, cfg: Config, t: real)
    requires pair.mode.Equal? && BothLive(a, b) && t >= 0.0
    ensures var s, diff := PairSpread(pair, a, b, cfg).value,
            (a.bid.value + a.ask.value - b.bid.value - b.ask.value) / 2.0;
            && s.signed == diff && s.metric >= 0.0
            && (s.metric > t <==> if cfg.useCrossablePrices then a.bid.value > b.ask.value + t ||
                                                                 b.bid.value > a.ask.value + t
                                  else diff > t || diff < -t)
  {
  }

  // ---------- Counting back ----------

  /** The last n updates are no older than the cutoff. */
  ghost predicate LastSince(times: seq<int>, n: int, cutoff: int) {
    n <= |times| && forall i :: |times| - n <= i < |times| && 0 <= i ==> times[i] >= cutoff
  }

  lemma {:induction false} CountIff(times: seq<int>, cutoff: int, n: int)
    ensures CountSince(times, cutoff) >= n <==> LastSince(times, n, cutoff)
  {
    if times != [] && n > 0 {
      var m := |times| - 1;
      CountIff(times[..m], cutoff, n - 1);
      if times[m] >= cutoff && LastSince(times[..m], n - 1, cutoff) {
        forall i | |times| - n <= i < |times| && 0 <= i ensures times[i] >= cutoff {
          if i < m { assert times[..m][i] >= cutoff; }
        }
      }
      if LastSince(times, n, cutoff) {
        assert times[m] >= cutoff;
        forall i | m - (n - 1) <= i < m && 0 <= i ensures times[..m][i] >= cutoff { assert times[i] >= cutoff; }
      }
    }
  }

  /** Active: live, and updated often enough within the activity window. */
  lemma {:induction false} ActiveIff(l: Leg, now: int, cfg: Config)
    ensures LegActive(l, now, cfg) <==>
              Live(l) && LastSince(l.updateTimes, cfg.minUpdatesInActivityWindow, now - cfg.activityWindowMs)
  {
    CountIff(l.updateTimes, now - cfg.activityWindowMs, cfg.minUpdatesInActivityWindow);
  }

  /** Spiked: live, updated often enough within the burst window, and some mid remembered from that window lies at
      least the minimum move away from today's. */
  lemma {:induction false} SpikeIff(l: Leg, now: int, cfg: Config)
    ensures RecentSpike(l, now, cfg) <==>
              && Live(l) && LastSince(l.updateTimes, cfg.spikeMinUpdates, now - cfg.spikeBurstMs)
              && exists h :: h in l.midHistory && h.t >= now - cfg.spikeBurstMs &&
                             var mid := (l.bid.value + l.ask.value) / 2.0;
                             (mid >= h.mid + cfg.spikeMoveMin || mid <= h.mid - cfg.spikeMoveMin)
  {
    CountIff(l.updateTimes, now - cfg.spikeBurstMs, cfg.spikeMinUpdates);
    if Live(l) {
      assert MidOf(l) == Some((l.bid.value + l.ask.value) / 2.0);
    }
  }

  /** Some mid remembered from the burst window lies at least the minimum move away from today's. */
  ghost predicate Moved(l: Leg, now: int, cfg: Config)
    requires Live(l)
  {
    exists h :: h in l.midHistory && h.t >= now - cfg.spikeBurstMs &&
                var mid := (l.bid.value + l.ask.value) / 2.0;
                (mid >= h.mid + cfg.spikeMoveMin || mid <= h.mid - cfg.spikeMoveMin)
  }

  /** What a monitor is shown: each leg's spike and activity are its own. */
  lemma {:induction false} ObservedIff(pair: Pair, a: Leg, b: Leg, now: int, cfg: Config)
    ensures var o := Observe(pair, a, b, now, cfg);
            var burst, quiet := now - cfg.spikeBurstMs, now - cfg.activityWindowMs;
            && (o.spread.Some? <==> BothLive(a, b))
            && (o.spikeA <==> Live(a) && LastSince(a.updateTimes, cfg.spikeMinUpdates, burst) && Moved(a, now, cfg))
            && (o.spikeB <==> Live(b) && LastSince(b.updateTimes, cfg.spikeMinUpdates, burst) && Moved(b, now, cfg))
            && (o.activeA <==> Live(a) && LastSince(a.updateTimes, cfg.minUpdatesInActivityWindow, quiet))
            && (o.activeB <==> Live(b) && LastSince(b.updateTimes, cfg.minUpdatesInActivityWindow, quiet))
  {
    hide RecentSpike, LegActive, LastSince;
    SpikeIff(a, now, cfg);
    SpikeIff(b, now, cfg);
    ActiveIff(a, now, cfg);
    ActiveIff(b, now, cfg);
  }

  // ---------- A leg fed tick by tick ----------

  function FedLeg(es: seq<TickEvent>, gap: int, cap: Option<nat>): Leg {
    if es == [] then NewLeg() else Fed(FedLeg(es[..|es| - 1], gap, cap), es[|es| - 1], gap, cap)
  }

  /** A fed leg shows its last quote and is live if that was a $0..1 book. */
  lemma {:induction false} FedShowsLast(es: seq<TickEvent>, gap: int, cap: Option<nat>)
    requires es != []
    ensures var l, e := FedLeg(es, gap, cap), es[|es| - 1];
            l.bid == Some(e.bid) && l.ask == Some(e.ask) && l.lastUpdateAt == Some(e.t) && !l.staleFlagged &&
            (IsBook(e) ==> Live(l))
  {
  }

  function LastN<A>(s: seq<A>, n: nat): seq<A> {
    if |s| <= n then s else s[|s| - n..]
  }

  lemma {:induction false} TrimNext<A>(s: seq<A>, x: A, n: nat)
    requires n > 0
    ensures Trim(LastN(s, n) + [x], Some(n)) == LastN(s + [x], n)
  {
    if |s| >= n { assert LastN(s, n) + [x] == (s + [x])[|s| - n..]; }
  }

  function Stamps(es: seq<TickEvent>): seq<int> {
    seq(|es|, i requires 0 <= i < |es| => es[i].t)
  }

  /** The ring of update times is the last ones fed, as many as it holds. */
  lemma {:induction false} FedTimes(es: seq<TickEvent>, gap: int, cap: nat)
    requires cap > 0
    ensures FedLeg(es, gap, Some(cap)).updateTimes == LastN(Stamps(es), cap)
  {
    hide Trim, LastN, FedMids;
    if es == [] {
      NothingFed(cap);
    } else {
      var m := |es| - 1;
      FedTimes(es[..m], gap, cap);
      assert Stamps(es) == Stamps(es[..m]) + [es[m].t];
      TrimNext(Stamps(es[..m]), es[m].t, cap);
    }
  }

  lemma {:induction false} NothingFed(n: nat)
    ensures LastN(Stamps([]), n) == []
  {
  }

  /** The latest pick up to j. */
  ghost predicate Latest(picks: seq<nat>, i: nat, j: nat) {
    i < |picks| && picks[i] <= j && (i + 1 < |picks| ==> j < picks[i + 1])
  }

  /** Less than the gap after the latest pick. */
  ghost predicate PassedBy(es: seq<TickEvent>, picks: seq<nat>, gap: int, j: nat)
    requires j < |es|
  {
    exists i: nat :: Latest(picks, i, j) && es[j].t - es[picks[i]].t < gap
  }

  /** Which ticks leave a mid behind: the first, and then exactly those at least the gap after the last that did. */
  ghost predicate Keeps(es: seq<TickEvent>, picks: seq<nat>, gap: int) {
    && (forall i :: 0 <= i < |picks| ==> picks[i] < |es|)
    && (es != [] ==> picks != [] && picks[0] == 0)
    && (forall i :: 0 < i < |picks| ==> picks[i - 1] < picks[i] && es[picks[i]].t - es[picks[i - 1]].t >= gap)
    && (forall j :: 0 <= j < |es| && j !in picks ==> PassedBy(es, picks, gap, j))
  }

  function Middles(es: seq<TickEvent>, picks: seq<nat>): seq<Mid>
    requires forall i :: 0 <= i < |picks| ==> picks[i] < |es|
  {
    seq(|picks|, i requires 0 <= i < |picks| => Mid(es[picks[i]].t, (es[picks[i]].bid + es[picks[i]].ask) / 2.0))
  }

  lemma {:induction false} MiddlesNext(es: seq<TickEvent>, picks: seq<nat>)
    requires es != [] && forall i :: 0 <= i < |picks| ==> picks[i] < |es| - 1
    ensures var e := es[|es| - 1];
            Middles(es, picks + [|es| - 1]) == Middles(es[..|es| - 1], picks) + [Mid(e.t, (e.bid + e.ask) / 2.0)]
    ensures Middles(es, picks) == Middles(es[..|es| - 1], picks)
  {
  }

  lemma {:induction false} LastOfLastN<A>(s: seq<A>, n: nat)
    requires n > 0
    ensures LastN(s, n) == [] <==> s == []
    ensures s != [] ==> LastN(s, n)[|LastN(s, n)| - 1] == s[|s| - 1]
  {
  }

  /** The mid history is the middles of those ticks' quotes, the last ones as many as the ring holds. */
  lemma {:induction false} FedMidsAre(es: seq<TickEvent>, gap: int, cap: nat) returns (picks: seq<nat>)
    requires cap > 0
    ensures Keeps(es, picks, gap) && FedLeg(es, gap, Some(cap)).midHistory == LastN(Middles(es, picks), cap)
  {
    hide Trim, LastN, PassedBy, Middles, Keeps, FedMids;
    picks := [];
    if es != [] {
      var m := |es| - 1;
      var before := FedMidsAre(es[..m], gap, cap);
      picks := OneMoreMid(es, gap, cap, before);
      FedLegNext(es, gap, cap);
    } else {
      NoMiddles(cap, gap);
    }
  }

  lemma {:induction false} FedLegNext(es: seq<TickEvent>, gap: int, cap: nat)
    requires es != []
    ensures FedLeg(es, gap, Some(cap)).midHistory ==
            FedMids(FedLeg(es[..|es| - 1], gap, Some(cap)).midHistory, es[|es| - 1], gap, Some(cap))
  {
  }

  lemma {:induction false} OneMoreMid(es: seq<TickEvent>, gap: int, cap: nat, before: seq<nat>)
    returns (picks: seq<nat>)
    requires es != [] && cap > 0 && Keeps(es[..|es| - 1], before, gap)
    ensures Keeps(es, picks, gap)
    ensures FedMids(LastN(Middles(es[..|es| - 1], before), cap), es[|es| - 1], gap, Some(cap)) ==
              LastN(Middles(es, picks), cap)
  {
    hide Trim, LastN, PassedBy;
    var m := |es| - 1;
    var e := es[m];
    LastOfLastN(Middles(es[..m], before), cap);
    MiddlesNext(es, before);
    if before == [] || e.t - es[before[|before| - 1]].t >= gap {
      picks := before + [m];
      PickedNext(es, before, gap);
      TrimNext(Middles(es[..m], before), Mid(e.t, (e.bid + e.ask) / 2.0), cap);
    } else {
      picks := before;
      PassedOver(es, before, gap);
    }
  }

  lemma {:induction false} NoMiddles(n: nat, gap: int)
    ensures LastN(Middles([], []), n) == [] && Keeps([], [], gap)
  {
  }

  lemma {:induction false} PassedStays(es: seq<TickEvent>, picks: seq<nat>, gap: int, j: nat, more: seq<nat>)
    requires es != [] && j < |es| - 1 && PassedBy(es[..|es| - 1], picks, gap, j)
    requires (forall i :: 0 <= i < |picks| ==> picks[i] < |es| - 1) && (more == [] || more == [|es| - 1])
    ensures PassedBy(es, picks + more, gap, j)
  {
    var i: nat :| Latest(picks, i, j) && es[..|es| - 1][j].t - es[..|es| - 1][picks[i]].t < gap;
    assert Latest(picks + more, i, j);
  }

  lemma {:induction false} PickedNext(es: seq<TickEvent>, picks: seq<nat>, gap: int)
    requires es != [] && Keeps(es[..|es| - 1], picks, gap)
    requires picks == [] || es[|es| - 1].t - es[picks[|picks| - 1]].t >= gap
    ensures Keeps(es, picks + [|es| - 1], gap)
  {
    hide PassedBy;
    var m := |es| - 1;
    var after := picks + [m];
    forall j | 0 <= j < |es| && j !in after ensures PassedBy(es, after, gap, j) {
      assert after[|picks|] == m;
      PassedStays(es, picks, gap, j, [m]);
    }
  }

  lemma {:induction false} PassedOver(es: seq<TickEvent>, picks: seq<nat>, gap: int)
    requires es != [] && Keeps(es[..|es| - 1], picks, gap)
    requires picks != [] && es[|es| - 1].t - es[picks[|picks| - 1]].t < gap
    ensures Keeps(es, picks, gap)
  {
    hide PassedBy;
    var m := |es| - 1;
    assert picks + [] == picks;
    forall j | 0 <= j < |es| && j !in picks ensures PassedBy(es, picks, gap, j) {
      if j < m { PassedStays(es, picks, gap, j, []); } else { JustPassed(es, picks, gap); }
    }
  }

  lemma {:induction false} JustPassed(es: seq<TickEvent>, picks: seq<nat>, gap: int)
    requires es != [] && picks != [] && (forall i :: 0 <= i < |picks| ==> picks[i] < |es| - 1)
    requires es[|es| - 1].t - es[picks[|picks| - 1]].t < gap
    ensures PassedBy(es, picks, gap, |es| - 1)
  {
    assert Latest(picks, |picks| - 1, |es| - 1);
  }

  /** The gap is the least that is not below the sample gap and lets a ring of 64 span twice the burst window. */
  lemma {:induction false} GapIsLeast(cfg: Config, g: int)
    requires g >= cfg.minSampleGapMs && RING * g >= 2 * cfg.spikeBurstMs
    ensures MidGap(cfg) <= g && MidGap(cfg) >= cfg.minSampleGapMs && RING * MidGap(cfg) >= 2 * cfg.spikeBurstMs
  {
  }
}
