/** Which sides of a market can be bought, at what price, read off its raw quotes and the process limits
    (services/arb-solver/src/clob/price-cache.ts, lines 221-282; services/arb-solver/src/solver/lp-builder.ts, lines
    35-250). */
module LegSides {
  import opened Wrappers
  import opened Graph
  import opened Lp
  import opened PriceCaches
  import opened LegBuilder
  import opened LegPrices
  import opened SkipFilter
  import opened SolvePrep
  import opened Fingerprint

  /** A book that was quoted, is not stale and was not too old when read. */
  predicate Fresh(s: Option<Snapshot>) {
    s.Some? && s.value.lastUpdate != 0 && s.value.staleSince == None && !s.value.agedOut
  }

  /** The YES ask is a price one can pay, and the book is not a two-sided one with nothing but dust at both ends. */
  predicate YesOffered(q: Quote, limits: Limits) {
    && Fresh(q.yes) && 0.0 < q.yes.value.ask <= 1.0 && q.yes.value.askSize > 0.0
    && !(0.0 < q.yes.value.bid <= limits.dustBand && 1.0 - q.yes.value.ask <= limits.dustBand)
  }

  /** The NO token's own book offers something. */
  predicate NoOffered(q: Quote) {
    && q.no.Some? && q.no.value.lastUpdate > 0 && q.no.value.staleSince == None
    && 0.0 < q.no.value.ask <= 1.0 && q.no.value.askSize > 0.0
  }

  /** NO can be sold into the YES bid: the book is one-sided, or its bid is below its ask, no further than the
      widest book allowed, and not dust. */
  predicate NoMirrored(q: Quote, limits: Limits) {
    && Fresh(q.yes) && q.yes.value.bid > 0.0 && q.yes.value.bidSize > 0.0
    && (q.yes.value.ask < 2.0 ==>
          && q.yes.value.bid < q.yes.value.ask <= q.yes.value.bid + limits.maxBookWidth
          && !(q.yes.value.bid <= limits.dustBand && 1.0 - q.yes.value.ask <= limits.dustBand))
  }

  ghost predicate SideBuilt(m: Market, q: Quote, venue: Venue, side: Side) {
    exists l :: l in MarketLegs(m, q, venue) && l.v.side == side
  }

  lemma {:induction false} SidesApart(m: Market, s: Quote, venue: Venue, l: Leg)
    ensures l in YesLegs(m, s, venue) ==> l.v.side == YES
    ensures l in NoLegs(m, s, venue) ==> l.v.side == NO
  {
    hide BuysFrom, SellsInto;
    YesLegsSide(m, s, venue, l);
    if l in NoLegs(m, s, venue) {
      if RealNo(s.no) { NoFromBook(m, s, venue, l); } else { NoSynthetic(m, s, venue, l); }
    }
  }

  lemma {:induction false} SideHasLegs(m: Market, side: Side, ts: seq<Tranche>, cap: Option<real>, price: real,
                                       fee: real)
    ensures SideLegs(m, side, ts, cap, price, fee) != []
  {
    if ts != [] { assert |TrancheLegs(m, side, ts)| == |ts|; }
  }

  lemma {:induction false} YesNonEmpty(m: Market, s: Quote, venue: Venue)
    ensures YesLegs(m, s, venue) != [] <==> SideUsability(s.yes, s.no, venue.limits).yes
  {
    hide SideUsability, SideLegs, Fee, AskTranches;
    if SideUsability(s.yes, s.no, venue.limits).yes {
      NeverFromSentinel(s.yes, s.no, venue.limits);
      var model := ModelOf(m, venue);
      SideHasLegs(m, YES, YesTranches(s, venue, model), Cap(venue, s.yes.value.askSize), s.yes.value.ask,
                  Fee(venue, model, s.yes.value.ask, true));
    }
  }

  lemma {:induction false} NoNonEmpty(m: Market, s: Quote, venue: Venue)
    ensures NoLegs(m, s, venue) != [] <==> SideUsability(s.yes, s.no, venue.limits).no
  {
    hide SideLegs, Fee, AskTranches, BidTranches;
    var model, u := ModelOf(m, venue), SideUsability(s.yes, s.no, venue.limits);
    if u.no && u.noFromBook {
      SideHasLegs(m, NO, NoTranches(s, true, venue, model), Cap(venue, s.no.value.askSize), s.no.value.ask,
                  Fee(venue, model, s.no.value.ask, true));
    } else if u.no {
      SideHasLegs(m, NO, NoTranches(s, false, venue, model), Cap(venue, s.yes.value.bidSize), 1.0 - s.yes.value.bid,
                  Fee(venue, model, s.yes.value.bid, false));
    }
  }

  /** Exactly when a market gets a YES leg, and exactly when a NO leg. A build that ignores NO books sees none. */
  lemma {:induction false} SidesIff(m: Market, q: Quote, venue: Venue)
    ensures SideBuilt(m, q, venue, YES) <==> YesOffered(q, venue.limits)
    ensures SideBuilt(m, q, venue, NO) <==> (venue.twoSided && NoOffered(q)) || NoMirrored(q, venue.limits)
  {
    hide YesLegs, NoLegs;
    var s := Seen(q, venue);
    YesNonEmpty(m, s, venue);
    NoNonEmpty(m, s, venue);
    if YesLegs(m, s, venue) != [] { assert YesLegs(m, s, venue)[0] in MarketLegs(m, q, venue); }
    if NoLegs(m, s, venue) != [] { assert NoLegs(m, s, venue)[0] in MarketLegs(m, q, venue); }
    forall l | l in MarketLegs(m, q, venue)
      ensures (l.v.side == YES ==> l in YesLegs(m, s, venue)) && (l.v.side == NO ==> l in NoLegs(m, s, venue))
    {
      SidesApart(m, s, venue, l);
    }
    forall l ensures (l in YesLegs(m, s, venue) ==> l.v.side == YES) && (l in NoLegs(m, s, venue) ==> l.v.side == NO) {
      SidesApart(m, s, venue, l);
    }
    UsableRaw(s, venue.limits);
  }

  lemma {:induction false} UsableRaw(s: Quote, limits: Limits)
    ensures SideUsability(s.yes, s.no, limits).yes <==> YesOffered(s, limits)
    ensures SideUsability(s.yes, s.no, limits).no <==> NoOffered(s) || NoMirrored(s, limits)
    ensures SideUsability(s.yes, s.no, limits).noFromBook <==> NoOffered(s)
  {
  }

  // ---------- Without a ladder ----------

  /** With the ladder off, a market's legs are the top of the book and nothing else: YES at its ask, NO at the NO book's
      ask, or else at what the YES bid leaves of 1. */
  lemma {:induction false} TopLegs(m: Market, q: Quote, venue: Venue)
    requires !venue.ladder
    ensures var model := ModelOf(m, venue);
            var fromBook := venue.twoSided && NoOffered(q);
            MarketLegs(m, q, venue) ==
            (if !YesOffered(q, venue.limits) then []
             else [Leg(LPVar(m.marketId, YES, Cap(venue, q.yes.value.askSize), -1), m.question,
                       q.yes.value.ask + Fee(venue, model, q.yes.value.ask, true))]) +
            (if fromBook then
               [Leg(LPVar(m.marketId, NO, Cap(venue, q.no.value.askSize), -1), m.question,
                    q.no.value.ask + Fee(venue, model, q.no.value.ask, true))]
             else if NoMirrored(q, venue.limits) then
               [Leg(LPVar(m.marketId, NO, Cap(venue, q.yes.value.bidSize), -1), m.question,
                    1.0 - q.yes.value.bid + Fee(venue, model, q.yes.value.bid, false))]
             else [])
  {
    hide SideUsability, Fee;
    var s := Seen(q, venue);
    UsableRaw(s, venue.limits);
  }

  // ---------- No arbitrage inside one market ----------

  /** No bid of the book is at or above one of its offers, below the top. */
  ghost predicate LevelsApart(s: Snapshot) {
    forall o, b :: OffersAt(s, o) && BidsAt(s, b) && (o != (s.ask, s.askSize) || b != (s.bid, s.bidSize)) ==> b.0 < o.0
  }

  /** Both sides of one market, priced from one book, cost more than the 1 they pay between them: a crossed book never
      manufactures an arbitrage. With a ladder this takes a book whose deeper levels do not cross. */
  lemma {:induction false} BothSidesCostMore(m: Market, q: Quote, venue: Venue, y: Leg, n: Leg)
    requires y in MarketLegs(m, q, venue) && n in MarketLegs(m, q, venue) && y.v.side == YES && n.v.side == NO
    requires !(venue.twoSided && NoOffered(q)) && (venue.ladder ==> LevelsApart(q.yes.value))
    requires forall price, buy :: Fee(venue, ModelOf(m, venue), price, buy) >= 0.0
    ensures y.cost + n.cost > 1.0
  {
    hide MarketLegs, Fee, LevelsApart, OffersAt, BidsAt;
    if !venue.ladder {
      TopLegs(m, q, venue);
      TopsApart(m, q, venue, y, n);
    } else {
      MarketLegSourced(m, q, venue, y);
      MarketLegSourced(m, q, venue, n);
      var o :| OffersAt(q.yes.value, o) && Buys(y, m, venue, o);
      var b :| BidsAt(q.yes.value, b) && Sells(n, m, venue, b);
      OrdersApart(m, q, venue, y, n, o, b);
      assert Fee(venue, ModelOf(m, venue), o.0, true) >= 0.0 && Fee(venue, ModelOf(m, venue), b.0, false) >= 0.0;
    }
  }

  lemma {:induction false} TopsApart(m: Market, q: Quote, venue: Venue, y: Leg, n: Leg)
    requires !venue.ladder && y in MarketLegs(m, q, venue) && n in MarketLegs(m, q, venue) && y.v.side == YES &&
             n.v.side == NO
    requires !(venue.twoSided && NoOffered(q))
    requires forall price, buy :: Fee(venue, ModelOf(m, venue), price, buy) >= 0.0
    ensures y.cost + n.cost > 1.0
  {
    hide MarketLegs, Fee;
    TopLegs(m, q, venue);
    assert Fee(venue, ModelOf(m, venue), q.yes.value.ask, true) >= 0.0;
    assert Fee(venue, ModelOf(m, venue), q.yes.value.bid, false) >= 0.0;
  }

  lemma {:induction false} OrdersApart(m: Market, q: Quote, venue: Venue, y: Leg, n: Leg, o: Order, b: Order)
    requires y in MarketLegs(m, q, venue) && n in MarketLegs(m, q, venue) && y.v.side == YES && n.v.side == NO
    requires !(venue.twoSided && NoOffered(q)) && q.yes.Some? && LevelsApart(q.yes.value)
    requires OffersAt(q.yes.value, o) && BidsAt(q.yes.value, b)
    ensures b.0 < o.0
  {
    hide MarketLegs;
    SidesIff(m, q, venue);
    assert SideBuilt(m, q, venue, YES) && SideBuilt(m, q, venue, NO);
  }

  // ---------- The ladder ----------

  /** The levels that pass, in order. */
  function Passing(levels: Ladder, ok: ((real, real)) -> bool): Ladder {
    if levels == [] then [] else
      var m := |levels| - 1;
      if ok(levels[m]) then Passing(levels[..m], ok) + [levels[m]] else Passing(levels[..m], ok)
  }

  /** How many tranches a side may have; a cap of 0 counts as 1. */
  function Most(cap: nat, n: nat): nat {
    var c := if cap == 0 then 1 else cap;
    if n < c then n else c
  }

  function AskOk(): ((real, real)) -> bool {
    (l: (real, real)) => 0.0 < l.0 <= 1.0 && l.1 > 0.0
  }

  function BidOk(): ((real, real)) -> bool {
    (l: (real, real)) => 0.0 < l.0 < 1.0 && l.1 > 0.0
  }

  /** A side's ask tranches are the first levels with a price in (0, 1] and a size, up to the cap, each with its own
      fee. */
  lemma {:induction false} AskTranchesAre(levels: Ladder, venue: Venue, model: FeeModel, k: nat)
    requires k <= |levels|
    ensures var ts, ps := AskTranches(levels, venue, model, k), Passing(levels[..k], AskOk());
            && |ts| == Most(venue.ladderCap, |ps|)
            && forall i :: 0 <= i < |ts| ==> ts[i] == Tranche(ps[i].0, Fee(venue, model, ps[i].0, true), ps[i].1)
  {
    hide Fee;
    if k > 0 {
      AskTranchesAre(levels, venue, model, k - 1);
      assert levels[..k][..k - 1] == levels[..k - 1];
    }
  }

  /** ... and its bid tranches the first bids in (0, 1) with a size, each as what it leaves of 1. */
  lemma {:induction false} BidTranchesAre(levels: Ladder, venue: Venue, model: FeeModel, k: nat)
    requires k <= |levels|
    ensures var ts, ps := BidTranches(levels, venue, model, k), Passing(levels[..k], BidOk());
            && |ts| == Most(venue.ladderCap, |ps|)
            && forall i :: 0 <= i < |ts| ==> ts[i] == Tranche(1.0 - ps[i].0, Fee(venue, model, ps[i].0, false), ps[i].1)
  {
    hide Fee;
    if k > 0 {
      BidTranchesAre(levels, venue, model, k - 1);
      assert levels[..k][..k - 1] == levels[..k - 1];
    }
  }

  /** One leg for each of the first levels, bought at its price. */
  ghost predicate Bought(legs: seq<Leg>, m: Market, side: Side, ps: Ladder, venue: Venue) {
    && |legs| == Most(venue.ladderCap, |ps|)
    && forall i :: 0 <= i < |legs| ==>
         legs[i] == Leg(LPVar(m.marketId, side, Some(ps[i].1), i), m.question,
                        ps[i].0 + Fee(venue, ModelOf(m, venue), ps[i].0, true))
  }

  /** One NO leg for each of the first YES bids, sold into it. */
  ghost predicate Sold(legs: seq<Leg>, m: Market, ps: Ladder, venue: Venue) {
    && |legs| == Most(venue.ladderCap, |ps|)
    && forall i :: 0 <= i < |legs| ==>
         legs[i] == Leg(LPVar(m.marketId, NO, Some(ps[i].1), i), m.question,
                        1.0 - ps[i].0 + Fee(venue, ModelOf(m, venue), ps[i].0, false))
  }

  /** With the ladder on, a usable side is split into one leg per tranche, capped at its size whatever the depth cap
      says and numbered from 0; a side whose ladder has no usable level falls back on the top of the book. */
  lemma {:induction false} LadderLegs(m: Market, q: Quote, venue: Venue)
    requires venue.ladder && YesOffered(q, venue.limits)
    ensures var model := ModelOf(m, venue);
            var ps, legs := Passing(Levels(q.yes.value.askLevels), AskOk()), YesLegs(m, Seen(q, venue), venue);
            if ps == [] then legs == [Leg(LPVar(m.marketId, YES, Cap(venue, q.yes.value.askSize), -1), m.question,
                                          q.yes.value.ask + Fee(venue, model, q.yes.value.ask, true))]
            else Bought(legs, m, YES, ps, venue)
  {
    hide Fee, SideUsability, AskTranches, Passing;
    var s, levels := Seen(q, venue), Levels(q.yes.value.askLevels);
    UsableRaw(s, venue.limits);
    AskTranchesAre(levels, venue, ModelOf(m, venue), |levels|);
    assert levels[..|levels|] == levels;
  }

  /** The NO side likewise, from its own book's asks or from the YES book's bids. */
  lemma {:induction false} LadderNoLegs(m: Market, q: Quote, venue: Venue)
    requires venue.ladder && ((venue.twoSided && NoOffered(q)) || NoMirrored(q, venue.limits))
    ensures var model, legs := ModelOf(m, venue), NoLegs(m, Seen(q, venue), venue);
            if venue.twoSided && NoOffered(q) then
              var ps := Passing(Levels(q.no.value.askLevels), AskOk());
              if ps == [] then legs == [Leg(LPVar(m.marketId, NO, Cap(venue, q.no.value.askSize), -1), m.question,
                                            q.no.value.ask + Fee(venue, model, q.no.value.ask, true))]
              else Bought(legs, m, NO, ps, venue)
            else
              var ps := Passing(Levels(q.yes.value.bidLevels), BidOk());
              if ps == [] then legs == [Leg(LPVar(m.marketId, NO, Cap(venue, q.yes.value.bidSize), -1), m.question,
                                            1.0 - q.yes.value.bid + Fee(venue, model, q.yes.value.bid, false))]
              else Sold(legs, m, ps, venue)
  {
    hide Fee, SideUsability, AskTranches, BidTranches, Passing;
    var s := Seen(q, venue);
    UsableRaw(s, venue.limits);
    if venue.twoSided && NoOffered(q) {
      var levels := Levels(q.no.value.askLevels);
      AskTranchesAre(levels, venue, ModelOf(m, venue), |levels|);
      assert levels[..|levels|] == levels;
    } else {
      var levels := Levels(q.yes.value.bidLevels);
      BidTranchesAre(levels, venue, ModelOf(m, venue), |levels|);
      assert levels[..|levels|] == levels;
    }
  }

  // ---------- The whole build ----------

  predicate Tradable(q: Quote, venue: Venue) {
    YesOffered(q, venue.limits) || (venue.twoSided && NoOffered(q)) || NoMirrored(q, venue.limits)
  }

  /** A build lists the legs of every market in order, and nothing else; there is none exactly when no side of any
      market can be bought, and it takes the profit-max form exactly when forced or when some side has a second
      tranche. */
  lemma {:induction false} BuildIff(ms: seq<Market>, qs: seq<Quote>, venue: Venue)
    requires |ms| == |qs|
    ensures BuildOf(ms, qs, venue).None? <==>
              forall i :: 0 <= i < |ms| ==> !Tradable(qs[i], venue)
    ensures BuildOf(ms, qs, venue).Some? ==>
              var b := BuildOf(ms, qs, venue).value;
              && (forall i, l :: 0 <= i < |ms| && l in MarketLegs(ms[i], qs[i], venue) ==> l in b.legs)
              && (b.profitMax <==> venue.forceProfitMax || exists l :: l in b.legs && l.v.level > 0)
  {
    hide MarketLegs, LegsUpTo;
    var legs := LegsUpTo(ms, qs, venue, |ms|);
    forall i, l | 0 <= i < |ms| && l in MarketLegs(ms[i], qs[i], venue) ensures l in legs {
      LegListed(ms, qs, venue, |ms|, i, l);
    }
    if legs != [] {
      var k := LegFrom(ms, qs, venue, |ms|, legs[0]);
      SidesIff(ms[k], qs[k], venue);
      assert SideBuilt(ms[k], qs[k], venue, legs[0].v.side);
    }
    if i :| 0 <= i < |ms| && Tradable(qs[i], venue) {
      SidesIff(ms[i], qs[i], venue);
      var side := if SideBuilt(ms[i], qs[i], venue, YES) then YES else NO;
      var l :| l in MarketLegs(ms[i], qs[i], venue) && l.v.side == side;
      assert l in legs;
    }
  }

  lemma {:induction false} LegListed(ms: seq<Market>, qs: seq<Quote>, venue: Venue, n: nat, i: nat, l: Leg)
    requires i < n <= |ms| == |qs| && l in MarketLegs(ms[i], qs[i], venue)
    ensures l in LegsUpTo(ms, qs, venue, n)
  {
    hide MarketLegs;
    if i < n - 1 { LegListed(ms, qs, venue, n - 1, i, l); }
  }

  // ---------- Questions and columns ----------

  /** A question is unquoted exactly when none of its markets has a side to buy; NO books are always read for that. */
  lemma {:induction false} UnquotedIff(qids: set<int>, ms: seq<Market>, qs: seq<Quote>, limits: Limits, q: int)
    requires |ms| == |qs|
    ensures q in UnquotedOf(qids, ms, qs, limits) <==>
              q in qids && forall i :: 0 <= i < |ms| && ms[i].question == q ==>
                !YesOffered(qs[i], limits) && !NoOffered(qs[i]) && !NoMirrored(qs[i], limits)
  {
    hide SideUsability, YesOffered, NoOffered, NoMirrored;
    forall i | 0 <= i < |ms|
      ensures Quoted(qs[i], limits) <==> YesOffered(qs[i], limits) || NoOffered(qs[i]) || NoMirrored(qs[i], limits)
    {
      UsableRaw(qs[i], limits);
    }
  }

  function Outlay(legs: seq<Leg>, x: seq<real>, k: nat): real
    requires k <= |legs| <= |x|
  {
    if k == 0 then 0.0 else Outlay(legs, x, k - 1) + legs[k - 1].cost * x[k - 1]
  }

  lemma {:induction false} CostIsOutlay(legs: seq<Leg>, objective: seq<real>, x: seq<real>, k: nat)
    requires k <= |legs| <= |objective| == |x| && forall i :: 0 <= i < |legs| ==> objective[i] == legs[i].cost
    ensures Cost(objective, x, k) == Outlay(legs, x, k)
  {
    if k > 0 { CostIsOutlay(legs, objective, x, k - 1); }
  }

  /** The problem has one column per leg, plus one for the guaranteed payout in the profit-max form, and minimises
      what the basket costs less that payout. */
  lemma {:induction false} ColumnsAre(ms: seq<Market>, b: LegBuild, x: seq<real>)
    requires |x| == |b.legs| + if b.profitMax then 1 else 0
    ensures var l := LegSetOf(ms, b);
            && |l.vars| == |l.objective| == |l.owner| == |x|
            && (forall i :: 0 <= i < |b.legs| ==> l.vars[i] == b.legs[i].v)
            && l.gIndex == (if b.profitMax then Some(|b.legs|) else None)
            && Cost(l.objective, x, |x|) == Outlay(b.legs, x, |b.legs|) - if b.profitMax then x[|b.legs|] else 0.0
  {
    CostIsOutlay(b.legs, LegSetOf(ms, b).objective, x, |b.legs|);
  }

  /** When every market is listed under one question only, a leg's column belongs to its own question. */
  lemma {:induction false} OwnersAre(ms: seq<Market>, qs: seq<Quote>, venue: Venue, i: nat)
    requires |ms| == |qs| && BuildOf(ms, qs, venue).Some? && i < |BuildOf(ms, qs, venue).value.legs|
    requires forall j, k :: 0 <= j < |ms| && 0 <= k < |ms| && ms[j].marketId == ms[k].marketId ==>
               ms[j].question == ms[k].question
    ensures LegSetOf(ms, BuildOf(ms, qs, venue).value).owner[i] == BuildOf(ms, qs, venue).value.legs[i].question
  {
    hide LegsUpTo;
    var l := BuildOf(ms, qs, venue).value.legs[i];
    var k := EveryLegSourced(ms, qs, venue, l);
    OwnerIs(ms, k);
  }

  lemma {:induction false} OwnerIs(ms: seq<Market>, k: nat)
    requires k < |ms|
    requires forall i, j :: 0 <= i < |ms| && 0 <= j < |ms| && ms[i].marketId == ms[j].marketId ==>
               ms[i].question == ms[j].question
    ensures OwnerIn(ms, ms[k].marketId) == ms[k].question
  {
    var m := |ms| - 1;
    if ms[m].marketId != ms[k].marketId { OwnerIs(ms[..m], k); }
  }
}
