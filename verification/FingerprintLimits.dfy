/** How far the fingerprint can be trusted: which quote stamps it needs, and how late the legs may be read after it
    (services/arb-solver/src/solve-core.ts, lines 512-563, takes the fingerprint at the tick's clock while
    services/arb-solver/src/solver/lp-builder.ts, lines 115-117, reads the cache again at its own). */
module FingerprintLimits {
  import opened Wrappers
  import opened Graph
  import opened Lp
  import opened PriceCaches
  import opened LegBuilder
  import opened SolvePrep
  import opened Fingerprint

  // ---------- Caches as a feed builds them ----------

  /** What the feed does to the cache; a lost platform stales every market it lists. */
  datatype Op = TrackOp(id: int) | QuoteOp(u: Update) | StaleOp(ids: set<int>, at: int) | EvictOp(keep: set<int>)

  datatype Books = Books(yes: Book, no: Book)

  function Put(book: Book, u: Update): Book {
    book[u.marketId := Updated(Entry(book, u.marketId), u)]
  }

  function Apply(b: Books, op: Op): Books {
    match op
    case TrackOp(id) => Books(if id in b.yes then b.yes else b.yes[id := Sentinel()], b.no)
    case QuoteOp(u) => if u.onNo then Books(b.yes, Put(b.no, u)) else Books(Put(b.yes, u), b.no)
    case StaleOp(ids, at) => Books(StaleSome(b.yes, ids, at), StaleSome(b.no, ids, at))
    case EvictOp(keep) => Books(Kept(b.yes, keep), Kept(b.no, keep))
  }

  function Fed(ops: seq<Op>): Books {
    if ops == [] then Books(map[], map[]) else Apply(Fed(ops[..|ops| - 1]), ops[|ops| - 1])
  }

  ghost predicate StampedIn(ops: seq<Op>, stamps: iset<int>) {
    forall i :: 0 <= i < |ops| && ops[i].QuoteOp? ==> ops[i].u.timestamp in stamps
  }

  /** Some feed with such stamps leads to this cache. */
  ghost predicate MadeOf(t: Moment, stamps: iset<int>) {
    exists ops :: StampedIn(ops, stamps) && Fed(ops) == Books(t.yes, t.no)
  }

  ghost predicate Positive(stamps: iset<int>) {
    forall z :: z in stamps ==> z > 0
  }

  lemma {:induction false} FedIsSane(ops: seq<Op>, stamps: iset<int>)
    requires StampedIn(ops, stamps) && Positive(stamps)
    ensures SaneBook(Fed(ops).yes) && SaneBook(Fed(ops).no)
  {
    if ops != [] {
      FedIsSane(ops[..|ops| - 1], stamps);
    }
  }

  // ---------- The stamps ----------

  ghost predicate PrintAlike(t: Moment, t': Moment, ms: seq<Market>) {
    Prints(ms, QuotesOf(t, ms)) == Prints(ms, QuotesOf(t', ms))
  }

  ghost predicate PriceAlike(t: Moment, t': Moment, ms: seq<Market>, venue: Venue) {
    PricedLegs(ms, QuotesOf(t, ms), venue) == PricedLegs(ms, QuotesOf(t', ms), venue)
  }

  /** Equal fingerprints mean equal legs, for every two feeds with such stamps, at whatever clocks and age limits. */
  ghost predicate PrintsDecide(stamps: iset<int>) {
    forall t, t', ms, venue :: MadeOf(t, stamps) && MadeOf(t', stamps) && PrintAlike(t, t', ms) ==>
             PriceAlike(t, t', ms, venue)
  }

  lemma {:induction false} PositiveDecides(t: Moment, t': Moment, ms: seq<Market>, venue: Venue, stamps: iset<int>)
    requires Positive(stamps) && MadeOf(t, stamps) && MadeOf(t', stamps) && PrintAlike(t, t', ms)
    ensures PriceAlike(t, t', ms, venue)
  {
    hide Prints, QuotesOf, PricedLegs, Fed, SaneBook, StampedIn, UnquotedOf, ProblemFor;
    var ops :| StampedIn(ops, stamps) && Fed(ops) == Books(t.yes, t.no);
    var ops' :| StampedIn(ops', stamps) && Fed(ops') == Books(t'.yes, t'.no);
    FedIsSane(ops, stamps);
    FedIsSane(ops', stamps);
    EqualPrintsPoseSame(t, t', ms, venue, Engine.Vrep, Cluster([], [], []), false, []);
  }

  function TestVenue(): Venue {
    Venue((f, p, b) => 0.0, id => FeeModel(0, 0.0, 0.0), Limits(0.02, 0.5), false, false, true, false, 0, false)
  }

  function NoQuoteAt(z: int): Update {
    PriceCaches.Update(1, true, 0.4, 0.5, 10.0, 10.0, z, None, None)
  }

  function OneNoBook(z: int): Moment {
    Moment(map[], map[1 := Updated(None, NoQuoteAt(z))], None, None, 0)
  }

  lemma {:induction false} OneNoBookMade(z: int, stamps: iset<int>)
    requires z in stamps
    ensures MadeOf(OneNoBook(z), stamps)
  {
    var ops := [QuoteOp(NoQuoteAt(z))];
    assert ops[..0] == [];
    assert Fed(ops[..0]) == Books(map[], map[]);
    assert StampedIn(ops, stamps) && Fed(ops) == Books(map[], map[1 := Updated(None, NoQuoteAt(z))]);
  }

  const ONE: seq<Market> := [Market(1, 1, None)]

  lemma {:induction false} OneNoBookPrints(z: int, p: int)
    ensures PrintAlike(OneNoBook(z), OneNoBook(p), ONE)
  {
    assert !IsPlaceholder(0.4, 0.5);
    assert QuotesOf(OneNoBook(z), ONE)[0].no == Some(Updated(None, NoQuoteAt(z)));
    assert QuotesOf(OneNoBook(p), ONE)[0].no == Some(Updated(None, NoQuoteAt(p)));
  }

  lemma {:induction false} OneNoBookPrices(z: int)
    ensures PricedLegs(ONE, QuotesOf(OneNoBook(z), ONE), TestVenue()).Some? <==> z > 0
  {
    assert !IsPlaceholder(0.4, 0.5);
    var q := QuotesOf(OneNoBook(z), ONE)[0];
    assert q == Quote(None, Some(Updated(None, NoQuoteAt(z))));
    assert LegsUpTo(ONE, [q], TestVenue(), 0) == [];
    assert QuotesOf(OneNoBook(z), ONE) == [q];
    assert LegsUpTo(ONE, [q], TestVenue(), 1) == MarketLegs(ONE[0], q, TestVenue());
  }

  /** The exact demand on the feed: once some stamp is positive, equal fingerprints mean equal legs over all feeds
      if and only if every stamp is. */
  lemma {:induction false} StampsIff(stamps: iset<int>, p: int)
    requires p in stamps && p > 0
    ensures PrintsDecide(stamps) <==> Positive(stamps)
  {
    hide PrintAlike, PriceAlike, MadeOf, OneNoBook, TestVenue;
    if Positive(stamps) {
      forall t, t', ms, venue | MadeOf(t, stamps) && MadeOf(t', stamps) && PrintAlike(t, t', ms)
        ensures PriceAlike(t, t', ms, venue)
      {
        PositiveDecides(t, t', ms, venue, stamps);
      }
    }
    if z :| z in stamps && z <= 0 {
      OneNoBookMade(z, stamps);
      OneNoBookMade(p, stamps);
      OneNoBookPrints(z, p);
      NotAlike(z, p);
    }
  }

  lemma {:induction false} NotAlike(z: int, p: int)
    requires z <= 0 < p
    ensures !PriceAlike(OneNoBook(z), OneNoBook(p), ONE, TestVenue())
  {
    hide QuotesOf, PricedLegs, OneNoBook, TestVenue;
    OneNoBookPrices(z);
    OneNoBookPrices(p);
  }

  // ---------- The clocks ----------

  predicate InTime(z: int, now: int) {
    0 < z <= now
  }

  ghost function UpTo(now: int): iset<int> {
    iset z: int | InTime(z, now)
  }

  /** A cache fed up to its clock: no quote is stamped later. */
  ghost predicate FedUpTo(t: Moment, ttl: Option<int>, tobTtl: Option<int>, now: int) {
    MadeOf(t, UpTo(now)) && t.ttl == ttl && t.tobTtl == tobTtl && t.now == now
  }

  /** Whatever the feed, legs read at `later` are fixed by the fingerprint taken at `now`. */
  ghost predicate LateLegsFixed(ttl: Option<int>, tobTtl: Option<int>, now: int, later: int) {
    forall t, t', ms, venue :: FedUpTo(t, ttl, tobTtl, now) && FedUpTo(t', ttl, tobTtl, now) &&
                               PrintAlike(t, t', ms) ==>
      PriceAlike(t.(now := later), t'.(now := later), ms, venue)
  }

  /** The shorter of the limits that are set. */
  function Limit(ttl: Option<int>, tobTtl: Option<int>): Option<int> {
    if ttl.None? then tobTtl else if tobTtl.None? || ttl.value <= tobTtl.value then ttl else tobTtl
  }

  /** Clocks of a fed snapshot: none after `now`, and both running while it is live. */
  ghost predicate Timed(s: Snapshot, now: int) {
    && 0 <= s.lastUpdate && (s.lastUpdate > 0 ==> s.lastUpdate <= now)
    && 0 <= s.tobChange && (s.tobChange > 0 ==> s.tobChange <= now)
    && (s.lastUpdate > 0 && s.staleSince.None? ==> s.tobChange > 0)
  }

  ghost predicate TimedBook(book: Book, now: int) {
    forall id :: id in book ==> Sane(book[id]) && Timed(book[id], now)
  }

  lemma {:induction false} UpdateTimed(prev: Option<Snapshot>, u: Update, now: int)
    requires 0 < u.timestamp <= now && (prev.Some? ==> Sane(prev.value) && Timed(prev.value, now))
    ensures Sane(Updated(prev, u)) && Timed(Updated(prev, u), now)
  {
  }

  lemma {:induction false} ApplyTimed(b: Books, op: Op, now: int)
    requires TimedBook(b.yes, now) && TimedBook(b.no, now) && (op.QuoteOp? ==> 0 < op.u.timestamp <= now)
    ensures TimedBook(Apply(b, op).yes, now) && TimedBook(Apply(b, op).no, now)
  {
    hide Updated;
    if op.QuoteOp? {
      UpdateTimed(Entry(b.yes, op.u.marketId), op.u, now);
      UpdateTimed(Entry(b.no, op.u.marketId), op.u, now);
    }
  }

  lemma {:induction false} FedIsTimed(ops: seq<Op>, now: int)
    requires StampedIn(ops, UpTo(now))
    ensures TimedBook(Fed(ops).yes, now) && TimedBook(Fed(ops).no, now)
  {
    hide Apply;
    if ops != [] {
      FedIsTimed(ops[..|ops| - 1], now);
      ApplyTimed(Fed(ops[..|ops| - 1]), ops[|ops| - 1], now);
    }
  }

  lemma {:induction false} MomentTimed(t: Moment, ttl: Option<int>, tobTtl: Option<int>, now: int)
    requires FedUpTo(t, ttl, tobTtl, now)
    ensures TimedBook(t.yes, now) && TimedBook(t.no, now) && Fingerprint.Reachable(t)
  {
    hide Fed, StampedIn;
    var ops :| StampedIn(ops, UpTo(now)) && Fed(ops) == Books(t.yes, t.no);
    FedIsTimed(ops, now);
  }

  // ---------- Delays too short or too long to matter ----------

  /** Before the clock has run past the limit, nothing can be too old. */
  lemma {:induction false} TooEarly(t: Moment, later: int, m: int, ms: seq<Market>)
    requires TimedBook(t.yes, t.now) && TimedBook(t.no, t.now) && t.now <= later <= m + 1
    requires Limit(t.ttl, t.tobTtl) == Some(m)
    ensures NoneAges(t, later, ms)
  {
    hide Sane;
    forall i | 0 <= i < |ms| ensures QuotesOf(t.(now := later), ms)[i] == QuotesOf(t, ms)[i] {
      SameRead(t.yes, ms[i].marketId, t, later, m);
      SameRead(t.no, ms[i].marketId, t, later, m);
    }
  }

  lemma {:induction false} SameRead(book: Book, id: int, t: Moment, later: int, m: int)
    requires TimedBook(book, t.now) && t.now <= later <= m + 1 && Limit(t.ttl, t.tobTtl) == Some(m)
    ensures ReadEntry(book, id, t.ttl, t.tobTtl, later) == ReadEntry(book, id, t.ttl, t.tobTtl, t.now)
  {
    hide Sane;
  }

  /** Once the delay outlasts the limit, every book is too old, and nothing is left to buy. */
  lemma {:induction false} AllTooOld(t: Moment, later: int, m: int, ms: seq<Market>, venue: Venue)
    requires TimedBook(t.yes, t.now) && TimedBook(t.no, t.now) && later - t.now > m
    requires Limit(t.ttl, t.tobTtl) == Some(m)
    ensures PricedLegs(ms, QuotesOf(t.(now := later), ms), venue) == None
  {
    hide LegsUpTo, QuotesOf;
    var qs := QuotesOf(t.(now := later), ms);
    forall i | 0 <= i < |ms| ensures MarketLegs(ms[i], qs[i], venue) == [] { OldMarket(t, later, m, ms, venue, i); }
    NoLegsAtAll(ms, qs, venue, |ms|);
  }

  lemma {:induction false} OldMarket(t: Moment, later: int, m: int, ms: seq<Market>, venue: Venue, i: nat)
    requires TimedBook(t.yes, t.now) && TimedBook(t.no, t.now) && later - t.now > m
    requires Limit(t.ttl, t.tobTtl) == Some(m) && i < |ms|
    ensures MarketLegs(ms[i], QuotesOf(t.(now := later), ms)[i], venue) == []
  {
    hide ReadEntry, TimedBook;
    var q := QuotesOf(t.(now := later), ms)[i];
    OldRead(t.yes, ms[i].marketId, t, later, m);
    OldRead(t.no, ms[i].marketId, t, later, m);
    Unsellable(Seen(q, venue), venue.limits);
  }

  ghost predicate Spent(s: Option<Snapshot>) {
    s.Some? ==> (s.value.lastUpdate == 0 || s.value.staleSince.Some? || s.value.agedOut) &&
                !(0.0 < s.value.ask <= 1.0 && s.value.lastUpdate > 0)
  }

  lemma {:induction false} OldRead(book: Book, id: int, t: Moment, later: int, m: int)
    requires TimedBook(book, t.now) && later - t.now > m && Limit(t.ttl, t.tobTtl) == Some(m)
    ensures Spent(ReadEntry(book, id, t.ttl, t.tobTtl, later))
  {
  }

  lemma {:induction false} Unsellable(q: Quote, limits: Limits)
    requires Spent(q.yes) && Spent(q.no)
    ensures !SideUsability(q.yes, q.no, limits).yes && !SideUsability(q.yes, q.no, limits).no
  {
  }

  lemma {:induction false} NoLegsAtAll(ms: seq<Market>, qs: seq<Quote>, venue: Venue, k: nat)
    requires k <= |ms| == |qs| && forall i :: 0 <= i < |ms| ==> MarketLegs(ms[i], qs[i], venue) == []
    ensures LegsUpTo(ms, qs, venue, k) == []
  {
    hide MarketLegs;
    if k > 0 { NoLegsAtAll(ms, qs, venue, k - 1); }
  }

  // ---------- Delays that matter ----------

  /** One NO book, quoted once. */
  function QuotedAt(z: int, ttl: Option<int>, tobTtl: Option<int>, now: int): Moment {
    OneNoBook(z).(ttl := ttl, tobTtl := tobTtl, now := now)
  }

  predicate Aged(z: int, ttl: Option<int>, tobTtl: Option<int>, now: int) {
    TooOld(ttl, z, now) || TooOld(tobTtl, z, now)
  }

  lemma {:induction false} QuotedRead(z: int, ttl: Option<int>, tobTtl: Option<int>, now: int)
    ensures QuotesOf(QuotedAt(z, ttl, tobTtl, now), ONE) ==
              [Quote(None, Some(ReadOf(Updated(None, NoQuoteAt(z)), ttl, tobTtl, now)))]
  {
    hide ReadOf;
    var qs := QuotesOf(QuotedAt(z, ttl, tobTtl, now), ONE);
    assert qs[0] == Quote(None, Some(ReadOf(Updated(None, NoQuoteAt(z)), ttl, tobTtl, now)));
  }

  lemma {:induction false} QuotedPrices(z: int, ttl: Option<int>, tobTtl: Option<int>, now: int)
    requires z > 0
    ensures PricedLegs(ONE, QuotesOf(QuotedAt(z, ttl, tobTtl, now), ONE), TestVenue()).Some? <==>
              !Aged(z, ttl, tobTtl, now)
  {
    hide QuotesOf;
    assert !IsPlaceholder(0.4, 0.5);
    QuotedRead(z, ttl, tobTtl, now);
    var q := Quote(None, Some(ReadOf(Updated(None, NoQuoteAt(z)), ttl, tobTtl, now)));
    assert LegsUpTo(ONE, [q], TestVenue(), 0) == [];
    assert LegsUpTo(ONE, [q], TestVenue(), 1) == MarketLegs(ONE[0], q, TestVenue());
  }

  lemma {:induction false} QuotedPrints(z: int, z': int, ttl: Option<int>, tobTtl: Option<int>, now: int)
    requires z > 0 && z' > 0 && !Aged(z, ttl, tobTtl, now) && !Aged(z', ttl, tobTtl, now)
    ensures PrintAlike(QuotedAt(z, ttl, tobTtl, now), QuotedAt(z', ttl, tobTtl, now), ONE)
  {
    hide QuotesOf;
    assert !IsPlaceholder(0.4, 0.5);
    QuotedRead(z, ttl, tobTtl, now);
    QuotedRead(z', ttl, tobTtl, now);
  }

  lemma {:induction false} QuotedFed(z: int, ttl: Option<int>, tobTtl: Option<int>, now: int)
    requires 0 < z <= now
    ensures FedUpTo(QuotedAt(z, ttl, tobTtl, now), ttl, tobTtl, now)
  {
    hide Fed, StampedIn, Updated;
    OneNoBookMade(z, UpTo(now));
    var ops :| StampedIn(ops, UpTo(now)) && Fed(ops) == Books(OneNoBook(z).yes, OneNoBook(z).no);
  }

  /** A book on the edge of its limit prints like a young one and cannot be bought a moment later. */
  lemma {:induction false} LateLegsMove(ttl: Option<int>, tobTtl: Option<int>, now: int, later: int, m: int)
    requires now < later && Limit(ttl, tobTtl) == Some(m) && 0 < m && later - now <= m < later - 1
    ensures !LateLegsFixed(ttl, tobTtl, now, later)
  {
    hide PrintAlike, QuotesOf, PricedLegs, TestVenue, FedUpTo;
    var z := if now - m > 0 then now - m else 1;
    var edge, young := QuotedAt(z, ttl, tobTtl, now), QuotedAt(now, ttl, tobTtl, now);
    QuotedPrints(z, now, ttl, tobTtl, now);
    QuotedPrices(z, ttl, tobTtl, later);
    QuotedPrices(now, ttl, tobTtl, later);
    QuotedFed(z, ttl, tobTtl, now);
    QuotedFed(now, ttl, tobTtl, now);
    assert edge.(now := later) == QuotedAt(z, ttl, tobTtl, later);
    assert young.(now := later) == QuotedAt(now, ttl, tobTtl, later);
    assert !PriceAlike(edge.(now := later), young.(now := later), ONE, TestVenue());
  }

  /** Does the delay let some book age out and leave another? Not without a delay or a limit, nor before the clock
      has run past the limit, nor once the delay outlasts it and every book is too old. */
  predicate Bites(limit: Option<int>, now: int, later: int) {
    now < later && limit.Some? && later - now <= limit.value < later - 1
  }

  lemma {:induction false} LateLegsStay(t: Moment, t': Moment, ms: seq<Market>, venue: Venue, ttl: Option<int>,
                                        tobTtl: Option<int>, now: int, later: int)
    requires now <= later && !Bites(Limit(ttl, tobTtl), now, later)
    requires FedUpTo(t, ttl, tobTtl, now) && FedUpTo(t', ttl, tobTtl, now) && PrintAlike(t, t', ms)
    ensures PriceAlike(t.(now := later), t'.(now := later), ms, venue)
  {
    hide PrintAlike, QuotesOf, PricedLegs, NoneAges, TimedBook, MadeOf;
    MomentTimed(t, ttl, tobTtl, now);
    MomentTimed(t', ttl, tobTtl, now);
    var limit := Limit(ttl, tobTtl);
    if limit.Some? && later - now > limit.value {
      AllTooOld(t, later, limit.value, ms, venue);
      AllTooOld(t', later, limit.value, ms, venue);
    } else {
      if now < later && limit.Some? {
        TooEarly(t, later, limit.value, ms);
        TooEarly(t', later, limit.value, ms);
      } else {
        NothingAges(t, later, ms);
        NothingAges(t', later, ms);
      }
      LateLegsFollow(t, later, t', later, ms, venue);
    }
  }

  /** The exact slack between the clocks: legs read at `later` follow the fingerprint of `now`, for all caches fed up to
      that clock, if and only if the delay does not bite. */
  lemma {:induction false} LateLegsIff(ttl: Option<int>, tobTtl: Option<int>, now: int, later: int)
    requires now <= later && (ttl.Some? ==> ttl.value > 0) && (tobTtl.Some? ==> tobTtl.value > 0)
    ensures LateLegsFixed(ttl, tobTtl, now, later) <==> !Bites(Limit(ttl, tobTtl), now, later)
  {
    hide PrintAlike, PriceAlike, FedUpTo;
    if Bites(Limit(ttl, tobTtl), now, later) {
      LateLegsMove(ttl, tobTtl, now, later, Limit(ttl, tobTtl).value);
    } else {
      forall t, t', ms, venue | FedUpTo(t, ttl, tobTtl, now) && FedUpTo(t', ttl, tobTtl, now) && PrintAlike(t, t', ms)
        ensures PriceAlike(t.(now := later), t'.(now := later), ms, venue)
      {
        LateLegsStay(t, t', ms, venue, ttl, tobTtl, now, later);
      }
    }
  }

  lemma {:induction false} NothingAges(t: Moment, later: int, ms: seq<Market>)
    requires t.now == later || (t.ttl.None? && t.tobTtl.None?)
    ensures NoneAges(t, later, ms)
  {
    assert t.now == later ==> t.(now := later) == t;
  }

  lemma {:induction false} LateLegsFollow(t: Moment, later: int, t': Moment, later': int, ms: seq<Market>, venue: Venue)
    requires Fingerprint.Reachable(t) && Fingerprint.Reachable(t') && PrintAlike(t, t', ms)
    requires NoneAges(t, later, ms) && NoneAges(t', later', ms)
    ensures PriceAlike(t.(now := later), t'.(now := later'), ms, venue)
  {
    hide QuotesOf, PricedLegs, Prints, UnquotedOf, ProblemFor;
    EqualPrintsPoseSame(t, t', ms, venue, Engine.Vrep, Cluster([], [], []), false, []);
  }
}
