/** Where the price of a leg comes from (services/arb-solver/src/solver/lp-builder.ts, lines 35-250): always an offer or
    a bid of a live book, never a sentinel. */
module LegPrices {
  import opened Wrappers
  import opened Graph
  import opened Lp
  import opened PriceCaches
  import opened LegBuilder

  /** A price and a size. */
  type Order = (real, real)

  predicate OffersAt(s: Snapshot, o: Order) {
    (o == (s.ask, s.askSize) || o in Levels(s.askLevels)) && 0.0 < o.0 <= 1.0 && o.1 > 0.0
  }

  predicate BidsAt(s: Snapshot, o: Order) {
    (o == (s.bid, s.bidSize) || o in Levels(s.bidLevels)) && 0.0 < o.0 && o.1 > 0.0
  }

  /** Capped at the order's size, or uncapped when depth caps are off. */
  predicate CapFits(l: Leg, size: real, venue: Venue) {
    l.v.cap == Some(size) || (l.v.cap.None? && !venue.enforceDepthCap)
  }

  /** The leg is this offer bought, fee included. */
  predicate Buys(l: Leg, m: Market, venue: Venue, o: Order) {
    l.cost == o.0 + Fee(venue, ModelOf(m, venue), o.0, true) && CapFits(l, o.1, venue)
  }

  /** The leg is the complement of this YES bid sold into, fee included. */
  predicate Sells(l: Leg, m: Market, venue: Venue, o: Order) {
    l.cost == 1.0 - o.0 + Fee(venue, ModelOf(m, venue), o.0, false) && CapFits(l, o.1, venue)
  }

  predicate Live(s: Option<Snapshot>) {
    s.Some? && s.value.lastUpdate != 0 && s.value.staleSince.None?
  }

  ghost predicate BuysFrom(l: Leg, m: Market, venue: Venue, s: Option<Snapshot>) {
    Live(s) && exists o :: OffersAt(s.value, o) && Buys(l, m, venue, o)
  }

  ghost predicate SellsInto(l: Leg, m: Market, venue: Venue, s: Option<Snapshot>) {
    Live(s) && exists o :: BidsAt(s.value, o) && Sells(l, m, venue, o)
  }

  /** A YES leg buys an offer of the market's live YES book; a NO leg buys one of its live NO book, or sells into a bid
      of its live YES book when the NO book has nothing usable. */
  ghost predicate Sourced(l: Leg, m: Market, q: Quote, venue: Venue) {
    && l.v.marketId == m.marketId && l.question == m.question
    && (l.v.side == YES ==> BuysFrom(l, m, venue, q.yes))
    && (l.v.side == NO ==> if RealNo(q.no) then BuysFrom(l, m, venue, q.no) else SellsInto(l, m, venue, q.yes))
  }

  lemma {:induction false} AskTrancheFrom(levels: Ladder, venue: Venue, model: FeeModel, k: nat, t: Tranche)
    requires k <= |levels| && t in AskTranches(levels, venue, model, k)
    ensures (t.price, t.size) in levels && 0.0 < t.price <= 1.0 && t.size > 0.0 &&
            t.fee == Fee(venue, model, t.price, true)
  {
    hide Fee;
    if t !in AskTranches(levels, venue, model, k - 1) {
      assert levels[k - 1] in levels && (t.price, t.size) == levels[k - 1];
    } else {
      AskTrancheFrom(levels, venue, model, k - 1, t);
    }
  }

  lemma {:induction false} BidTrancheFrom(levels: Ladder, venue: Venue, model: FeeModel, k: nat, t: Tranche)
    requires k <= |levels| && t in BidTranches(levels, venue, model, k)
    ensures (1.0 - t.price, t.size) in levels && 0.0 < 1.0 - t.price < 1.0 && t.size > 0.0 &&
            t.fee == Fee(venue, model, 1.0 - t.price, false)
  {
    hide Fee;
    if t !in BidTranches(levels, venue, model, k - 1) {
      assert levels[k - 1] in levels && (1.0 - t.price, t.size) == levels[k - 1];
    } else {
      BidTrancheFrom(levels, venue, model, k - 1, t);
    }
  }

  /** A side's leg is either one of its tranches or the top of the book. */
  lemma {:induction false} SideLegIs(m: Market, side: Side, ts: seq<Tranche>, cap: Option<real>, price: real, fee: real,
                                     l: Leg)
    requires l in SideLegs(m, side, ts, cap, price, fee)
    ensures l.v.marketId == m.marketId && l.question == m.question && l.v.side == side
    ensures (exists t :: t in ts && l.cost == t.price + t.fee && l.v.cap == Some(t.size)) ||
            (l.cost == price + fee && l.v.cap == cap)
  {
    if ts != [] {
      var i :| 0 <= i < |ts| && l == TrancheLegs(m, side, ts)[i];
      assert ts[i] in ts;
    }
  }

  lemma {:induction false} YesSourced(m: Market, q: Quote, venue: Venue, l: Leg)
    requires l in YesLegs(m, q, venue)
    ensures l.v.side == YES && l.v.marketId == m.marketId && l.question == m.question && BuysFrom(l, m, venue, q.yes)
  {
    hide Fee, SideLegs, AskTranches, OffersAt;
    var model, ts := ModelOf(m, venue), YesTranches(q, venue, ModelOf(m, venue));
    var s := q.yes.value;
    SideLegIs(m, YES, ts, Cap(venue, s.askSize), s.ask, Fee(venue, model, s.ask, true), l);
    if t :| t in ts && l.cost == t.price + t.fee && l.v.cap == Some(t.size) {
      AskTrancheFrom(Levels(s.askLevels), venue, model, |Levels(s.askLevels)|, t);
      AskLevel(s, t.price, t.size);
      assert OffersAt(s, (t.price, t.size)) && Buys(l, m, venue, (t.price, t.size));
    } else {
      AskTop(s);
      assert OffersAt(s, (s.ask, s.askSize)) && Buys(l, m, venue, (s.ask, s.askSize));
    }
  }

  lemma {:induction false} AskLevel(s: Snapshot, price: real, size: real)
    requires (price, size) in Levels(s.askLevels) && 0.0 < price <= 1.0 && size > 0.0
    ensures OffersAt(s, (price, size))
  {
  }

  lemma {:induction false} AskTop(s: Snapshot)
    requires 0.0 < s.ask <= 1.0 && s.askSize > 0.0
    ensures OffersAt(s, (s.ask, s.askSize))
  {
  }

  lemma {:induction false} NoFromBook(m: Market, q: Quote, venue: Venue, l: Leg)
    requires l in NoLegs(m, q, venue) && RealNo(q.no)
    ensures l.v.side == NO && l.v.marketId == m.marketId && l.question == m.question && BuysFrom(l, m, venue, q.no)
  {
    hide Fee, SideLegs, AskTranches, BidTranches, OffersAt;
    var model, ts := ModelOf(m, venue), NoTranches(q, true, venue, ModelOf(m, venue));
    var s := q.no.value;
    SideLegIs(m, NO, ts, Cap(venue, s.askSize), s.ask, Fee(venue, model, s.ask, true), l);
    if t :| t in ts && l.cost == t.price + t.fee && l.v.cap == Some(t.size) {
      AskTrancheFrom(Levels(s.askLevels), venue, model, |Levels(s.askLevels)|, t);
      AskLevel(s, t.price, t.size);
      assert OffersAt(s, (t.price, t.size)) && Buys(l, m, venue, (t.price, t.size));
    } else {
      AskTop(s);
      assert OffersAt(s, (s.ask, s.askSize)) && Buys(l, m, venue, (s.ask, s.askSize));
    }
  }

  lemma {:induction false} NoSynthetic(m: Market, q: Quote, venue: Venue, l: Leg)
    requires l in NoLegs(m, q, venue) && !RealNo(q.no)
    ensures l.v.side == NO && l.v.marketId == m.marketId && l.question == m.question && SellsInto(l, m, venue, q.yes)
  {
    hide Fee, SideLegs, AskTranches, BidTranches;
    var model, ts := ModelOf(m, venue), NoTranches(q, false, venue, ModelOf(m, venue));
    var s := q.yes.value;
    SideLegIs(m, NO, ts, Cap(venue, s.bidSize), 1.0 - s.bid, Fee(venue, model, s.bid, false), l);
    if t :| t in ts && l.cost == t.price + t.fee && l.v.cap == Some(t.size) {
      BidTrancheFrom(Levels(s.bidLevels), venue, model, |Levels(s.bidLevels)|, t);
      assert BidsAt(s, (1.0 - t.price, t.size)) && Sells(l, m, venue, (1.0 - t.price, t.size));
    } else {
      assert BidsAt(s, (s.bid, s.bidSize)) && Sells(l, m, venue, (s.bid, s.bidSize));
    }
  }

  lemma {:induction false} MarketLegSourced(m: Market, q: Quote, venue: Venue, l: Leg)
    requires l in MarketLegs(m, q, venue)
    ensures Sourced(l, m, Seen(q, venue), venue)
  {
    hide YesLegs, NoLegs, BuysFrom, SellsInto;
    var seen := Seen(q, venue);
    if l in YesLegs(m, seen, venue) {
      YesSourced(m, seen, venue, l);
    } else if RealNo(seen.no) {
      NoFromBook(m, seen, venue, l);
    } else {
      NoSynthetic(m, seen, venue, l);
    }
  }

  /** Every leg of every build is one real order of its own market: its cost is that order's price plus its fee, and its
      cap that order's size. No leg is ever priced from a sentinel or a stale book. */
  lemma {:induction false} EveryLegSourced(ms: seq<Market>, qs: seq<Quote>, venue: Venue, l: Leg) returns (k: nat)
    requires |ms| == |qs| && BuildOf(ms, qs, venue).Some? && l in BuildOf(ms, qs, venue).value.legs
    ensures k < |ms| && Sourced(l, ms[k], Seen(qs[k], venue), venue)
  {
    k := LegFrom(ms, qs, venue, |ms|, l);
    MarketLegSourced(ms[k], qs[k], venue, l);
  }

  lemma {:induction false} LegFrom(ms: seq<Market>, qs: seq<Quote>, venue: Venue, n: nat, l: Leg) returns (k: nat)
    requires n <= |ms| == |qs| && l in LegsUpTo(ms, qs, venue, n)
    ensures k < n && l in MarketLegs(ms[k], qs[k], venue)
  {
    hide MarketLegs;
    if l in LegsUpTo(ms, qs, venue, n - 1) {
      k := LegFrom(ms, qs, venue, n - 1, l);
    } else {
      k := n - 1;
    }
  }

  // ---------- A bid of 1 or more ----------

  /** With non-negative fees every leg costs something, except a NO sold into a YES bid of 1 or more. */
  lemma {:induction false} FreeOnlyAtOne(m: Market, q: Quote, venue: Venue, l: Leg)
    requires l in MarketLegs(m, q, venue) && l.cost <= 0.0
    requires forall price, buy :: Fee(venue, ModelOf(m, venue), price, buy) >= 0.0
    ensures l.v.side == NO && q.yes.Some? && exists o :: BidsAt(q.yes.value, o) && Sells(l, m, venue, o) && o.0 >= 1.0
  {
    hide MarketLegs, BidsAt, BuysFrom;
    MarketLegSourced(m, q, venue, l);
    var s := Seen(q, venue);
    if BuysFrom(l, m, venue, s.yes) { BoughtCosts(l, m, venue, s.yes); }
    if BuysFrom(l, m, venue, s.no) { BoughtCosts(l, m, venue, s.no); }
    var o :| BidsAt(s.yes.value, o) && Sells(l, m, venue, o);
    assert Fee(venue, ModelOf(m, venue), o.0, false) >= 0.0;
  }

  lemma {:induction false} BoughtCosts(l: Leg, m: Market, venue: Venue, s: Option<Snapshot>)
    requires BuysFrom(l, m, venue, s) && forall price, buy :: Fee(venue, ModelOf(m, venue), price, buy) >= 0.0
    ensures l.cost > 0.0
  {
    hide Fee;
    var o :| OffersAt(s.value, o) && Buys(l, m, venue, o);
    assert Fee(venue, ModelOf(m, venue), o.0, true) >= 0.0;
  }

  /** The guard of the free leg: NO is sold into the YES book's top bid, no ladder tranche replaces it, and the bid
      leaves nothing to pay after the fee. */
  predicate FreeGuard(m: Market, s: Quote, venue: Venue) {
    var u := SideUsability(s.yes, s.no, venue.limits);
    && u.no && !u.noFromBook && NoTranches(s, false, venue, ModelOf(m, venue)) == []
    && s.yes.value.bid >= 1.0 + Fee(venue, ModelOf(m, venue), s.yes.value.bid, false)
  }

  lemma {:induction false} FreeTopLeg(m: Market, s: Quote, venue: Venue)
    requires FreeGuard(m, s, venue)
    ensures NoLegs(m, s, venue) ==
            [Leg(LPVar(m.marketId, NO, Cap(venue, s.yes.value.bidSize), -1), m.question,
                 1.0 - s.yes.value.bid + Fee(venue, ModelOf(m, venue), s.yes.value.bid, false))]
  {
    hide Fee, BidTranches;
  }

  /** A tranche always costs something: the ladder takes bids below 1 only. */
  lemma {:induction false} TrancheCosts(m: Market, s: Quote, venue: Venue, l: Leg)
    requires l in NoLegs(m, s, venue) && !RealNo(s.no) && NoTranches(s, false, venue, ModelOf(m, venue)) != []
    requires forall price, buy :: Fee(venue, ModelOf(m, venue), price, buy) >= 0.0
    ensures l.cost > 0.0
  {
    hide Fee, BidTranches;
    var model, ts := ModelOf(m, venue), NoTranches(s, false, venue, ModelOf(m, venue));
    assert l in TrancheLegs(m, NO, ts);
    var i :| 0 <= i < |ts| && l == TrancheLegs(m, NO, ts)[i];
    assert ts[i] in ts;
    BidTrancheFrom(Levels(s.yes.value.bidLevels), venue, model, |Levels(s.yes.value.bidLevels)|, ts[i]);
    assert Fee(venue, model, 1.0 - ts[i].price, false) >= 0.0;
  }

  lemma {:induction false} FreeMeansGuard(m: Market, q: Quote, venue: Venue, l: Leg)
    requires l in MarketLegs(m, q, venue) && l.cost <= 0.0
    requires forall price, buy :: Fee(venue, ModelOf(m, venue), price, buy) >= 0.0
    ensures FreeGuard(m, Seen(q, venue), venue)
  {
    hide Fee, BidTranches, AskTranches, BuysFrom, SellsInto;
    var s := Seen(q, venue);
    MarketLegSourced(m, q, venue, l);
    if BuysFrom(l, m, venue, s.yes) { BoughtCosts(l, m, venue, s.yes); }
    if BuysFrom(l, m, venue, s.no) { BoughtCosts(l, m, venue, s.no); }
    YesLegsSide(m, s, venue, l);
    if NoTranches(s, false, venue, ModelOf(m, venue)) != [] { TrancheCosts(m, s, venue, l); }
  }

  lemma {:induction false} YesLegsSide(m: Market, s: Quote, venue: Venue, l: Leg)
    ensures l in YesLegs(m, s, venue) ==> l.v.side == YES
  {
    hide BuysFrom;
    if l in YesLegs(m, s, venue) { YesSourced(m, s, venue, l); }
  }

  /** Exactly when a market yields a leg that costs nothing or less, under any non-negative fees: its NO book is
      unusable, its live, unsuppressed YES book bids at least 1 plus the fee, and no ladder tranche is built. */
  lemma {:induction false} FreeLegIff(m: Market, q: Quote, venue: Venue)
    requires forall price, buy :: Fee(venue, ModelOf(m, venue), price, buy) >= 0.0
    ensures (exists l :: l in MarketLegs(m, q, venue) && l.cost <= 0.0) <==> FreeGuard(m, Seen(q, venue), venue)
  {
    hide FreeGuard, Fee, YesLegs, NoLegs;
    if l :| l in MarketLegs(m, q, venue) && l.cost <= 0.0 { FreeMeansGuard(m, q, venue, l); }
    if FreeGuard(m, Seen(q, venue), venue) {
      var s := Seen(q, venue);
      FreeTopLeg(m, s, venue);
      GuardBid(m, s, venue);
      var l := NoLegs(m, s, venue)[0];
      assert l in MarketLegs(m, q, venue) && l.cost <= 0.0;
    }
  }

  lemma {:induction false} GuardBid(m: Market, s: Quote, venue: Venue)
    requires FreeGuard(m, s, venue)
    ensures s.yes.Some? && 1.0 - s.yes.value.bid + Fee(venue, ModelOf(m, venue), s.yes.value.bid, false) <= 0.0
  {
  }

  /** A YES book that bids 1 and offers nothing. */
  function BidOfOne(): Quote {
    Quote(Some(Snapshot(1.0, SENTINEL_ASK, 5.0, 0.0, 1, None, 1, false, None, None)), None)
  }

  /** The ladder drops bids of 1 and above, the top of the book does not: this market's NO leg is free. */
  lemma {:induction false} BidOfOneIsFree(m: Market, venue: Venue)
    requires !venue.enforceFees && venue.limits.dustBand < 1.0
    ensures MarketLegs(m, BidOfOne(), venue) == [Leg(LPVar(m.marketId, NO, Cap(venue, 5.0), -1), m.question, 0.0)]
  {
    var q := Seen(BidOfOne(), venue);
    assert q == BidOfOne();
    var model := ModelOf(m, venue);
    assert NoTranches(q, false, venue, model) == [];
    assert YesLegs(m, q, venue) == [];
  }
}
