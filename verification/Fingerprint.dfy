/** Skipping a tick whose fingerprint repeats (services/arb-solver/src/solver/cluster-fingerprint.ts): the fingerprint
    leaves out every liveness flag, and still fixes the legs, the unquoted questions and so the whole problem. */
module Fingerprint {
  import opened Wrappers
  import opened Graph
  import opened Omega
  import opened Lp
  import opened FacetLp
  import opened LpBuilder
  import opened PriceCaches
  import opened LegBuilder
  import opened SolvePrep

  /** What one snapshot prints; an absent ladder and an empty one print the same, and so do no staleness and 0. */
  datatype Print = NoBook | Printed(bid: real, ask: real, bidSize: real, askSize: real, stale: int, asks: Ladder,
                                    bids: Ladder)

  datatype MarketPrint = MarketPrint(marketId: int, yes: Print, no: Print, fee: Option<FeeModel>)

  function PrintOf(s: Option<Snapshot>): Print {
    if s.None? then NoBook
    else Printed(s.value.bid, s.value.ask, s.value.bidSize, s.value.askSize,
                 if s.value.staleSince.Some? then s.value.staleSince.value
                      else 0, Levels(s.value.askLevels), Levels(s.value.bidLevels))
  }

  function MarketPrintOf(m: Market, q: Quote): MarketPrint {
    MarketPrint(m.marketId, PrintOf(q.yes), PrintOf(q.no), m.fee)
  }

  function Prints(ms: seq<Market>, qs: seq<Quote>): (r: seq<MarketPrint>)
    requires |ms| == |qs|
    ensures |r| == |ms|
  {
    seq(|ms|, i requires 0 <= i < |ms| => MarketPrintOf(ms[i], qs[i]))
  }

  /** Reads of one cache at one clock. */
  function QuotesAt(yes: Book, no: Book, ttl: Option<int>, tobTtl: Option<int>, now: int,
                    ms: seq<Market>): (qs: seq<Quote>)
    ensures |qs| == |ms|
  {
    seq(|ms|, i requires 0 <= i < |ms| =>
      Quote(ReadEntry(yes, ms[i].marketId, ttl, tobTtl, now), ReadEntry(no, ms[i].marketId, ttl, tobTtl, now)))
  }

  method ClusterFingerprint(cache: PriceCache, ms: seq<Market>, now: int) returns (parts: seq<MarketPrint>)
    ensures parts == Prints(ms, QuotesAt(cache.cache, cache.noCache, cache.ttl, cache.tobTtl, now, ms))
  {
    parts := [];
    for i := 0 to |ms|
      invariant |parts| == i
      invariant forall j :: 0 <= j < i ==>
                  parts[j] == MarketPrintOf(ms[j],
                                            Quote(cache.Get(ms[j].marketId, now), cache.GetNo(ms[j].marketId, now)))
    {
      var yes, no := cache.Get(ms[i].marketId, now), cache.GetNo(ms[i].marketId, now);
      parts := parts + [MarketPrint(ms[i].marketId, PrintOf(yes), PrintOf(no), ms[i].fee)];
    }
  }

  // ---------- What a read guarantees ----------

  /** A snapshot as a read hands it out: dead for lack of life only behind the sentinel. */
  ghost predicate ReadSane(s: Option<Snapshot>) {
    s.Some? && (s.value.lastUpdate <= 0 || s.value.staleSince.Some? || s.value.agedOut) ==>
      s.value.bid == 0.0 && s.value.ask == SENTINEL_ASK && s.value.lastUpdate >= 0
  }

  lemma {:induction false} ReadsAreSane(book: Book, id: int, ttl: Option<int>, tobTtl: Option<int>, now: int)
    requires SaneBook(book)
    ensures ReadSane(ReadEntry(book, id, ttl, tobTtl, now))
  {
  }

  ghost predicate SaneQuote(q: Quote) {
    ReadSane(q.yes) && ReadSane(q.no)
  }

  ghost predicate SamePrint(a: Quote, b: Quote) {
    PrintOf(a.yes) == PrintOf(b.yes) && PrintOf(a.no) == PrintOf(b.no)
  }

  /** The flags that are not printed decide nothing: behind the sentinel no side is usable, in front of it all of
      them are off. */
  lemma {:induction false} SameUsability(a: Quote, b: Quote, limits: Limits)
    requires SaneQuote(a) && SaneQuote(b) && SamePrint(a, b)
    ensures SideUsability(a.yes, a.no, limits) == SideUsability(b.yes, b.no, limits)
  {
    hide Levels;
    SameYesDeath(a.yes, b.yes, limits);
  }

  lemma {:induction false} SameYesDeath(a: Option<Snapshot>, b: Option<Snapshot>, limits: Limits)
    requires ReadSane(a) && ReadSane(b) && PrintOf(a) == PrintOf(b)
    ensures a.Some? == b.Some?
    ensures a.Some? && a.value.ask != SENTINEL_ASK ==> IsDead(a, limits) == IsDead(b, limits)
  {
    hide Levels;
  }

  lemma {:induction false} SameYesLegs(m: Market, a: Quote, b: Quote, venue: Venue)
    requires SaneQuote(a) && SaneQuote(b) && SamePrint(a, b)
    ensures YesLegs(m, a, venue) == YesLegs(m, b, venue)
  {
    hide SideUsability, SideLegs, AskTranches, ReadSane, Levels;
    SameUsability(a, b, venue.limits);
    NeverFromSentinel(a.yes, a.no, venue.limits);
    NeverFromSentinel(b.yes, b.no, venue.limits);
  }

  lemma {:induction false} NoSource(q: Quote, limits: Limits)
    ensures var u := SideUsability(q.yes, q.no, limits);
            (u.noFromBook ==> q.no.Some?) && (u.no && !u.noFromBook ==> q.yes.Some?)
  {
  }

  lemma {:induction false} SameNoLegs(m: Market, a: Quote, b: Quote, venue: Venue)
    requires SaneQuote(a) && SaneQuote(b) && SamePrint(a, b)
    ensures NoLegs(m, a, venue) == NoLegs(m, b, venue)
  {
    hide SideUsability, SideLegs, AskTranches, BidTranches, ReadSane, Levels;
    SameUsability(a, b, venue.limits);
    NoSource(a, venue.limits);
    NoSource(b, venue.limits);
  }

  lemma {:induction false} SameMarketLegs(m: Market, a: Quote, b: Quote, venue: Venue)
    requires SaneQuote(a) && SaneQuote(b) && SamePrint(a, b)
    ensures MarketLegs(m, a, venue) == MarketLegs(m, b, venue)
  {
    hide YesLegs, NoLegs, PrintOf;
    SameYesLegs(m, Seen(a, venue), Seen(b, venue), venue);
    SameNoLegs(m, Seen(a, venue), Seen(b, venue), venue);
  }

  lemma {:induction false} SameLegsUpTo(ms: seq<Market>, ms': seq<Market>, qs: seq<Quote>, qs': seq<Quote>,
                                        venue: Venue, k: nat)
    requires |ms| == |qs| == |ms'| == |qs'| && k <= |ms|
    requires forall i :: 0 <= i < |ms| ==> ms[i] == ms'[i] && SaneQuote(qs[i]) && SaneQuote(qs'[i]) &&
                                           SamePrint(qs[i], qs'[i])
    ensures LegsUpTo(ms, qs, venue, k) == LegsUpTo(ms', qs', venue, k)
  {
    hide MarketLegs, SaneQuote, SamePrint;
    if k > 0 {
      SameLegsUpTo(ms, ms', qs, qs', venue, k - 1);
      SameMarketLegs(ms[k - 1], qs[k - 1], qs'[k - 1], venue);
    }
  }

  /** Question of a market; a market listed under two questions counts for the last. */
  function OwnerIn(ms: seq<Market>, id: int): int {
    if ms == [] then -1 else if ms[|ms| - 1].marketId == id then ms[|ms| - 1].question else OwnerIn(ms[..|ms| - 1], id)
  }

  /** The LP columns of a build: the legs, then the guaranteed-payout variable in the profit-max form. */
  function LegSetOf(ms: seq<Market>, b: LegBuild): LegSet {
    var n := |b.legs|;
    var vars := seq(n, i requires 0 <= i < n => b.legs[i].v);
    var costs := seq(n, i requires 0 <= i < n => b.legs[i].cost);
    var owners := seq(n, i requires 0 <= i < n => OwnerIn(ms, b.legs[i].v.marketId));
    if b.profitMax then LegSet(vars + [LPVar(-1, YES, None, -1)], costs + [-1.0], owners + [-1], Some(n))
    else LegSet(vars, costs, owners, None)
  }

  function PricedLegs(ms: seq<Market>, qs: seq<Quote>, venue: Venue): Option<LegSet>
    requires |ms| == |qs|
  {
    var b := BuildOf(ms, qs, venue);
    if b.None? then None else Some(LegSetOf(ms, b.value))
  }

  predicate Quoted(q: Quote, limits: Limits) {
    var u := SideUsability(q.yes, q.no, limits);
    u.yes || u.no
  }

  /** Questions none of whose markets has a usable side. */
  function UnquotedOf(qids: set<int>, ms: seq<Market>, qs: seq<Quote>, limits: Limits): set<int>
    requires |ms| == |qs|
  {
    set q | q in qids && !exists i | 0 <= i < |ms| :: ms[i].question == q && Quoted(qs[i], limits)
  }

  lemma {:induction false} SameUnquoted(qids: set<int>, ms: seq<Market>, qs: seq<Quote>, qs': seq<Quote>,
                                        limits: Limits)
    requires |ms| == |qs| == |qs'|
    requires forall i :: 0 <= i < |ms| ==> SaneQuote(qs[i]) && SaneQuote(qs'[i]) && SamePrint(qs[i], qs'[i])
    ensures UnquotedOf(qids, ms, qs, limits) == UnquotedOf(qids, ms, qs', limits)
  {
    hide SideUsability, SaneQuote, SamePrint;
    forall i | 0 <= i < |ms| ensures Quoted(qs[i], limits) == Quoted(qs'[i], limits) {
      SameUsability(qs[i], qs'[i], limits);
    }
  }

  /** The cache on one tick, as the fingerprint and the legs read it. */
  datatype Moment = Moment(yes: Book, no: Book, ttl: Option<int>, tobTtl: Option<int>, now: int)

  function QuotesOf(t: Moment, ms: seq<Market>): (qs: seq<Quote>)
    ensures |qs| == |ms|
  {
    QuotesAt(t.yes, t.no, t.ttl, t.tobTtl, t.now, ms)
  }

  ghost predicate Reachable(t: Moment) {
    SaneBook(t.yes) && SaneBook(t.no)
  }

  /** No book of these markets crosses an age limit between the tick's clock and `later`: both read alike. */
  ghost predicate NoneAges(t: Moment, later: int, ms: seq<Market>) {
    QuotesOf(t.(now := later), ms) == QuotesOf(t, ms)
  }

  lemma {:induction false} QuotesSane(t: Moment, ms: seq<Market>)
    requires Reachable(t)
    ensures forall i :: 0 <= i < |ms| ==> SaneQuote(QuotesOf(t, ms)[i])
  {
    hide ReadEntry, SaneBook, ReadSane;
    forall i | 0 <= i < |ms| ensures SaneQuote(QuotesOf(t, ms)[i]) {
      ReadsAreSane(t.yes, ms[i].marketId, t.ttl, t.tobTtl, t.now);
      ReadsAreSane(t.no, ms[i].marketId, t.ttl, t.tobTtl, t.now);
    }
  }

  lemma {:induction false} PrintsAgree(ms: seq<Market>, qs: seq<Quote>, qs': seq<Quote>)
    requires |ms| == |qs| == |qs'| && Prints(ms, qs) == Prints(ms, qs')
    ensures forall i :: 0 <= i < |ms| ==> SamePrint(qs[i], qs'[i])
  {
    hide PrintOf;
    forall i | 0 <= i < |ms| ensures SamePrint(qs[i], qs'[i]) {
      assert Prints(ms, qs)[i] == Prints(ms, qs')[i];
    }
  }

  /** Fingerprint soundness. Two moments of caches fed with positive times, at whatever clocks, with equal
      fingerprints price the same legs and leave the same questions unquoted, so they pose the same problem over
      the same states under every engine. */
  lemma {:induction false} EqualPrintsPoseSame(t: Moment, t': Moment, ms: seq<Market>, venue: Venue, engine: Engine,
                                               c: Cluster, relaxed: bool, states: seq<World>)
    requires Reachable(t) && Reachable(t') && Prints(ms, QuotesOf(t, ms)) == Prints(ms, QuotesOf(t', ms))
    ensures PricedLegs(ms, QuotesOf(t, ms), venue) == PricedLegs(ms, QuotesOf(t', ms), venue)
    ensures UnquotedOf(QidSet(c), ms, QuotesOf(t, ms), venue.limits) ==
              UnquotedOf(QidSet(c), ms, QuotesOf(t', ms), venue.limits)
    ensures var legs := PricedLegs(ms, QuotesOf(t, ms), venue);
            (legs.Some? ==> LegsOf(legs.value, c.qids)) ==>
            ProblemFor(engine, c, relaxed, states, UnquotedOf(QidSet(c), ms, QuotesOf(t, ms), venue.limits), legs) ==
            ProblemFor(engine, c, relaxed, states, UnquotedOf(QidSet(c), ms, QuotesOf(t', ms), venue.limits),
                       PricedLegs(ms, QuotesOf(t', ms), venue))
  {
    hide QuotesOf, SaneQuote, SamePrint, LegsUpTo, UnquotedOf, LegSetOf, ProblemFor;
    QuotesSane(t, ms);
    QuotesSane(t', ms);
    PrintsAgree(ms, QuotesOf(t, ms), QuotesOf(t', ms));
    SameLegsUpTo(ms, ms, QuotesOf(t, ms), QuotesOf(t', ms), venue, |ms|);
    SameUnquoted(QidSet(c), ms, QuotesOf(t, ms), QuotesOf(t', ms), venue.limits);
  }

  // ---------- Why times must be positive ----------

  /** A first quote stamped 0 leaves a book the usability test calls dead. */
  function StampedZero(): Snapshot {
    Updated(None, PriceCaches.Update(1, false, 0.4, 0.5, 10.0, 10.0, 0, None, None))
  }

  function StampedLater(): Snapshot {
    Updated(None, PriceCaches.Update(1, false, 0.4, 0.5, 10.0, 10.0, 7, None, None))
  }

  /** Same print, and one can be bought while the other cannot. */
  lemma {:induction false} ZeroStampBreaksIt()
    ensures PrintOf(Some(StampedZero())) == PrintOf(Some(StampedLater()))
    ensures var limits := Limits(0.02, 0.5);
            !SideUsability(Some(StampedZero()), None, limits).yes &&
            SideUsability(Some(StampedLater()), None, limits).yes
    ensures !Sane(StampedZero())
  {
    assert !IsPlaceholder(0.4, 0.5);
  }
}
