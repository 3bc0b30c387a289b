/** The priced legs of a cluster (services/arb-solver/src/solver/lp-builder.ts, lines 35-250), and the fingerprint of
    what they are built from (services/arb-solver/src/solver/cluster-fingerprint.ts). */
module LegBuilder {
  import opened Wrappers
  import opened Graph
  import opened Lp
  import opened PriceCaches

  datatype FeeModel = FeeModel(form: int, rate: real, exponent: real)

  /** `fee` is the market's own model; without one its platform's default applies. */
  datatype Market = Market(marketId: int, question: int, fee: Option<FeeModel>)

  /** Fixed for a process: the fee curve, each market's platform default, the quality limits, and the build flags. */
  datatype Venue = Venue(feePerShare: (FeeModel, real, bool) -> real, defaultFee: int -> FeeModel, limits: Limits,
                         enforceDepthCap: bool, enforceFees: bool, twoSided: bool, ladder: bool, ladderCap: nat,
                         forceProfitMax: bool)

  /** Both books of one market as read on one tick. */
  datatype Quote = Quote(yes: Option<Snapshot>, no: Option<Snapshot>)

  datatype Tranche = Tranche(price: real, fee: real, size: real)

  /** A leg: its LP variable, its question, its price and fee. */
  datatype Leg = Leg(v: LPVar, question: int, cost: real)

  function ModelOf(m: Market, venue: Venue): FeeModel {
    if m.fee.Some? then m.fee.value else venue.defaultFee(m.marketId)
  }

  function Fee(venue: Venue, model: FeeModel, price: real, buy: bool): real {
    if venue.enforceFees then venue.feePerShare(model, price, buy) else 0.0
  }

  /** The first `cap` usable levels; a cap of 0 still lets one through, as the test comes after the push. */
  function Full(out: seq<Tranche>, cap: nat): bool {
    |out| > 0 && |out| >= cap
  }

  function AskTranches(levels: Ladder, venue: Venue, model: FeeModel, k: nat): seq<Tranche>
    requires k <= |levels|
  {
    if k == 0 then []
    else
      var before := AskTranches(levels, venue, model, k - 1);
      var (price, size) := levels[k - 1];
      if Full(before, venue.ladderCap) || price <= 0.0 || price > 1.0 || size <= 0.0 then before
      else before + [Tranche(price, Fee(venue, model, price, true), size)]
  }

  /** A YES bid at b is a NO offer at 1 - b, sold at b's fee. */
  function BidTranches(levels: Ladder, venue: Venue, model: FeeModel, k: nat): seq<Tranche>
    requires k <= |levels|
  {
    if k == 0 then []
    else
      var before := BidTranches(levels, venue, model, k - 1);
      var (bid, size) := levels[k - 1];
      if Full(before, venue.ladderCap) || bid <= 0.0 || bid >= 1.0 || size <= 0.0 then before
      else before + [Tranche(1.0 - bid, Fee(venue, model, bid, false), size)]
  }

  function Levels(ladder: Option<Ladder>): Ladder {
    if ladder.Some? then ladder.value else []
  }

  function YesTranches(q: Quote, venue: Venue, model: FeeModel): seq<Tranche> {
    if !venue.ladder || q.yes.None? then [] else
      AskTranches(Levels(q.yes.value.askLevels), venue, model, |Levels(q.yes.value.askLevels)|)
  }

  function NoTranches(q: Quote, noFromBook: bool, venue: Venue, model: FeeModel): seq<Tranche> {
    if !venue.ladder then []
    else if noFromBook then (if q.no.None? then [] else AskTranches(Levels(q.no.value.askLevels), venue, model,
                                                                    |Levels(q.no.value.askLevels)|))
    else if q.yes.None? then []
    else BidTranches(Levels(q.yes.value.bidLevels), venue, model, |Levels(q.yes.value.bidLevels)|)
  }

  function TrancheLegs(m: Market, side: Side, ts: seq<Tranche>): seq<Leg> {
    seq(|ts|, i requires 0 <= i < |ts| =>
      Leg(LPVar(m.marketId, side, Some(ts[i].size), i), m.question, ts[i].price + ts[i].fee))
  }

  function Cap(venue: Venue, depth: real): Option<real> {
    if venue.enforceDepthCap then Some(depth) else None
  }

  /** One variable per tranche, or one for the top of the book when there is no usable ladder. */
  function SideLegs(m: Market, side: Side, ts: seq<Tranche>, cap: Option<real>, price: real, fee: real): seq<Leg> {
    if ts != [] then TrancheLegs(m, side, ts) else [Leg(LPVar(m.marketId, side, cap, -1), m.question, price + fee)]
  }

  function YesLegs(m: Market, q: Quote, venue: Venue): seq<Leg> {
    var u := SideUsability(q.yes, q.no, venue.limits);
    var model := ModelOf(m, venue);
    if !u.yes then []
    else SideLegs(m, YES, YesTranches(q, venue, model), Cap(venue, q.yes.value.askSize), q.yes.value.ask,
                  Fee(venue, model, q.yes.value.ask, true))
  }

  function NoLegs(m: Market, q: Quote, venue: Venue): seq<Leg> {
    var u := SideUsability(q.yes, q.no, venue.limits);
    var model := ModelOf(m, venue);
    if !u.no then []
    else if u.noFromBook then
      SideLegs(m, NO, NoTranches(q, true, venue, model), Cap(venue, q.no.value.askSize), q.no.value.ask,
               Fee(venue, model, q.no.value.ask, true))
    else
      SideLegs(m, NO, NoTranches(q, false, venue, model), Cap(venue, q.yes.value.bidSize), 1.0 - q.yes.value.bid,
               Fee(venue, model, q.yes.value.bid, false))
  }

  /** A single-book test build ignores the NO book. */
  function Seen(q: Quote, venue: Venue): Quote {
    if venue.twoSided then q else Quote(q.yes, None)
  }

  function MarketLegs(m: Market, q: Quote, venue: Venue): seq<Leg> {
    YesLegs(m, Seen(q, venue), venue) + NoLegs(m, Seen(q, venue), venue)
  }

  function LegsUpTo(ms: seq<Market>, qs: seq<Quote>, venue: Venue, k: nat): seq<Leg>
    requires k <= |ms| == |qs|
  {
    if k == 0 then [] else LegsUpTo(ms, qs, venue, k - 1) + MarketLegs(ms[k - 1], qs[k - 1], venue)
  }

  /** Some side was split into more than one tranche. */
  predicate Tranched(legs: seq<Leg>) {
    exists l | l in legs :: l.v.level >= 1
  }

  datatype LegBuild = LegBuild(legs: seq<Leg>, profitMax: bool)

  /** None when no side of any market is usable. */
  function BuildOf(ms: seq<Market>, qs: seq<Quote>, venue: Venue): Option<LegBuild>
    requires |ms| == |qs|
  {
    var legs := LegsUpTo(ms, qs, venue, |ms|);
    if legs == [] then None else Some(LegBuild(legs, Tranched(legs) || venue.forceProfitMax))
  }

  // ---------- The loops ----------

  method CollectAsks(levels: Ladder, venue: Venue, model: FeeModel) returns (out: seq<Tranche>)
    ensures out == AskTranches(levels, venue, model, |levels|)
  {
    out := [];
    var i := 0;
    while i < |levels|
      invariant 0 <= i <= |levels| && out == AskTranches(levels, venue, model, i) && !Full(out, venue.ladderCap)
    {
      var price, size := levels[i].0, levels[i].1;
      i := i + 1;
      if price <= 0.0 || price > 1.0 || size <= 0.0 { continue; }
      out := out + [Tranche(price, Fee(venue, model, price, true), size)];
      if |out| >= venue.ladderCap {
        FullAsks(levels, venue, model, i, |levels|);
        return;
      }
    }
  }

  lemma {:induction false} FullAsks(levels: Ladder, venue: Venue, model: FeeModel, i: nat, k: nat)
    requires i <= k <= |levels| && Full(AskTranches(levels, venue, model, i), venue.ladderCap)
    ensures AskTranches(levels, venue, model, k) == AskTranches(levels, venue, model, i)
  {
    if i < k { FullAsks(levels, venue, model, i, k - 1); }
  }

  method CollectBids(levels: Ladder, venue: Venue, model: FeeModel) returns (out: seq<Tranche>)
    ensures out == BidTranches(levels, venue, model, |levels|)
  {
    out := [];
    var i := 0;
    while i < |levels|
      invariant 0 <= i <= |levels| && out == BidTranches(levels, venue, model, i) && !Full(out, venue.ladderCap)
    {
      var bid, size := levels[i].0, levels[i].1;
      i := i + 1;
      if bid <= 0.0 || bid >= 1.0 || size <= 0.0 { continue; }
      out := out + [Tranche(1.0 - bid, Fee(venue, model, bid, false), size)];
      if |out| >= venue.ladderCap {
        FullBids(levels, venue, model, i, |levels|);
        return;
      }
    }
  }

  lemma {:induction false} FullBids(levels: Ladder, venue: Venue, model: FeeModel, i: nat, k: nat)
    requires i <= k <= |levels| && Full(BidTranches(levels, venue, model, i), venue.ladderCap)
    ensures BidTranches(levels, venue, model, k) == BidTranches(levels, venue, model, i)
  {
    if i < k { FullBids(levels, venue, model, i, k - 1); }
  }

  /** The legs of one side, pushed one by one. */
  method PushSide(m: Market, side: Side, ts: seq<Tranche>, cap: Option<real>, price: real, fee: real)
    returns (legs: seq<Leg>)
    ensures legs == SideLegs(m, side, ts, cap, price, fee)
  {
    if |ts| == 0 { return [Leg(LPVar(m.marketId, side, cap, -1), m.question, price + fee)]; }
    legs := [];
    for i := 0 to |ts|
      invariant |legs| == i
      invariant forall j :: 0 <= j < i ==> legs[j] == TrancheLegs(m, side, ts)[j]
    {
      legs := legs + [Leg(LPVar(m.marketId, side, Some(ts[i].size), i), m.question, ts[i].price + ts[i].fee)];
    }
  }

  method PushMarket(m: Market, q: Quote, venue: Venue) returns (legs: seq<Leg>)
    ensures legs == MarketLegs(m, q, venue)
  {
    var s := Seen(q, venue);
    var u := SideUsability(s.yes, s.no, venue.limits);
    var model := ModelOf(m, venue);
    legs := [];
    if u.yes {
      var ts: seq<Tranche> := [];
      if venue.ladder { ts := CollectAsks(Levels(s.yes.value.askLevels), venue, model); }
      legs := PushSide(m, YES, ts, Cap(venue, s.yes.value.askSize), s.yes.value.ask,
                       Fee(venue, model, s.yes.value.ask, true));
    }
    if u.no {
      var ts: seq<Tranche> := [];
      var more;
      if u.noFromBook {
        if venue.ladder { ts := CollectAsks(Levels(s.no.value.askLevels), venue, model); }
        more := PushSide(m, NO, ts, Cap(venue, s.no.value.askSize), s.no.value.ask,
                         Fee(venue, model, s.no.value.ask, true));
      } else {
        if venue.ladder { ts := CollectBids(Levels(s.yes.value.bidLevels), venue, model); }
        more := PushSide(m, NO, ts, Cap(venue, s.yes.value.bidSize), 1.0 - s.yes.value.bid,
                         Fee(venue, model, s.yes.value.bid, false));
      }
      legs := legs + more;
    }
  }

  method BuildLegVariables(ms: seq<Market>, qs: seq<Quote>, venue: Venue) returns (build: Option<LegBuild>)
    requires |ms| == |qs|
    ensures build == BuildOf(ms, qs, venue)
  {
    var legs: seq<Leg> := [];
    var anyTranched := false;
    for k := 0 to |ms|
      invariant legs == LegsUpTo(ms, qs, venue, k)
      invariant anyTranched <==> Tranched(legs)
    {
      var more := PushMarket(ms[k], qs[k], venue);
      if exists l | l in more :: l.v.level >= 1 { anyTranched := true; }
      legs := legs + more;
    }
    if |legs| == 0 { return None; }
    build := Some(LegBuild(legs, anyTranched || venue.forceProfitMax));
  }
}
