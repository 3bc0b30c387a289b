/** The in-memory quote cache of services/arb-solver/src/clob/price-cache.ts. Prices and sizes are reals, times are
    milliseconds; NaN and infinities are not modelled. */
module PriceCaches {
  import opened Wrappers
  import opened Graph

  const SENTINEL_ASK: real := 2.0
  const PLACEHOLDER_ASK_FLOOR: real := 1.5

  type Ladder = seq<(real, real)>

  /** `agedOut` is set only on copies handed out by a read. */
  datatype Snapshot = Snapshot(bid: real, ask: real, bidSize: real, askSize: real, lastUpdate: int,
                               staleSince: Option<int>,
                               tobChange: int, agedOut: bool, askLevels: Option<Ladder>, bidLevels: Option<Ladder>)

  datatype Update = Update(marketId: int, onNo: bool, bid: real, ask: real, bidSize: real, askSize: real,
                           timestamp: int,
                           askLevels: Option<Ladder>, bidLevels: Option<Ladder>)

  type Book = map<int, Snapshot>

  function Sentinel(): Snapshot {
    Snapshot(0.0, SENTINEL_ASK, 0.0, 0.0, 0, None, 0, false, None, None)
  }

  predicate IsPlaceholder(bid: real, ask: real) {
    bid <= 0.0 && ask >= PLACEHOLDER_ASK_FLOOR
  }

  function Entry(book: Book, id: int): Option<Snapshot> {
    if id in book then Some(book[id]) else None
  }

  predicate WasLive(prev: Option<Snapshot>) {
    prev.Some? && prev.value.lastUpdate > 0 && prev.value.staleSince.None? &&
    !IsPlaceholder(prev.value.bid, prev.value.ask)
  }

  predicate TopMoved(prev: Option<Snapshot>, u: Update) {
    || prev.None? || prev.value.lastUpdate == 0
    || prev.value.bid != u.bid || prev.value.ask != u.ask || prev.value.bidSize != u.bidSize ||
                                                             prev.value.askSize != u.askSize
  }

  /** What an update leaves: a placeholder frame blanks the book, and marks a live one stale. */
  function Updated(prev: Option<Snapshot>, u: Update): Snapshot {
    if IsPlaceholder(u.bid, u.ask) then
      Sentinel().(lastUpdate := if WasLive(prev) then prev.value.lastUpdate else 0,
                  staleSince := if WasLive(prev) then Some(u.timestamp) else None)
    else
      Snapshot(u.bid, u.ask, u.bidSize, u.askSize, u.timestamp, None,
               if TopMoved(prev, u) then u.timestamp else prev.value.tobChange, false, u.askLevels, u.bidLevels)
  }

  function Level(ladder: Option<Ladder>, i: nat): Option<(real, real)> {
    if ladder.Some? && i < |ladder.value| then Some(ladder.value[i]) else None
  }

  predicate Reports(prev: Option<Snapshot>, u: Update) {
    if IsPlaceholder(u.bid, u.ask) then WasLive(prev)
    else
      || TopMoved(prev, u)
      || Level(prev.value.askLevels, 1) != Level(u.askLevels, 1)
      || Level(prev.value.bidLevels, 1) != Level(u.bidLevels, 1)
  }

  function Staled(s: Snapshot, now: int): Snapshot {
    s.(staleSince := Some(now), ask := SENTINEL_ASK, bid := 0.0)
  }

  function StaleBook(book: Book, now: int): Book {
    map id | id in book :: Staled(book[id], now)
  }

  function StaleSome(book: Book, ids: set<int>, now: int): Book {
    map id | id in book :: if id in ids then Staled(book[id], now) else book[id]
  }

  predicate TooOld(ttl: Option<int>, since: int, now: int) {
    ttl.Some? && now - since > ttl.value
  }

  /** The copy a read hands out: a stale or aged book shows the sentinel and no ladder. */
  function ReadOf(s: Snapshot, ttl: Option<int>, tobTtl: Option<int>, now: int): Snapshot {
    var aged := s.lastUpdate > 0 && TooOld(ttl, s.lastUpdate, now);
    var tobAged := s.lastUpdate > 0 && s.tobChange > 0 && TooOld(tobTtl, s.tobChange, now);
    if s.staleSince.Some? || aged || tobAged then
      s.(ask := SENTINEL_ASK, bid := 0.0, askLevels := None, bidLevels := None, agedOut := aged || tobAged)
    else s
  }

  function ReadEntry(book: Book, id: int, ttl: Option<int>, tobTtl: Option<int>, now: int): Option<Snapshot> {
    if id in book then Some(ReadOf(book[id], ttl, tobTtl, now)) else None
  }

  // ---------- The invariant of every cache fed with positive times ----------

  /** Never quoted or gone stale: only the sentinel is left to read. */
  ghost predicate Sane(s: Snapshot) {
    && s.lastUpdate >= 0 && !s.agedOut
    && (s.lastUpdate == 0 || s.staleSince.Some? ==> s.bid == 0.0 && s.ask == SENTINEL_ASK)
  }

  ghost predicate SaneBook(book: Book) {
    forall id :: id in book ==> Sane(book[id])
  }

  function MarkOne(book: Book, id: int, now: int): Book {
    if id in book then book[id := Staled(book[id], now)] else book
  }

  lemma {:induction false} MarkNext(book: Book, ids: set<int>, id: int, now: int)
    ensures MarkOne(StaleSome(book, ids, now), id, now) == StaleSome(book, ids + {id}, now)
  {
    var a, b := MarkOne(StaleSome(book, ids, now), id, now), StaleSome(book, ids + {id}, now);
    assert a.Keys == b.Keys;
  }

  lemma {:induction false} MarkNone(book: Book, now: int)
    ensures StaleSome(book, {}, now) == book
  {
    assert StaleSome(book, {}, now).Keys == book.Keys;
  }

  lemma {:induction false} MarkAll(book: Book, ids: set<int>, now: int)
    requires ids == book.Keys
    ensures StaleSome(book, ids, now) == StaleBook(book, now)
  {
    assert StaleSome(book, ids, now).Keys == StaleBook(book, now).Keys;
  }

  /** Marks book by book. */
  method StaleEach(book: Book, now: int) returns (stale: Book)
    ensures stale == StaleBook(book, now)
  {
    stale := book;
    var rest, done := book.Keys, {};
    MarkNone(book, now);
    while rest != {}
      invariant rest + done == book.Keys
      invariant stale == StaleSome(book, done, now)
      decreases |rest|
    {
      ghost var some := SomeIn(rest);
      var id :| id in rest;
      MarkNext(book, done, id, now);
      stale := MarkOne(stale, id, now);
      rest, done := rest - {id}, done + {id};
    }
    MarkAll(book, done, now);
  }

  function Kept(book: Book, keep: set<int>): Book {
    map id | id in book && id in keep :: book[id]
  }

  /** Deletes book by book. */
  method EvictFrom(book: Book, keep: set<int>) returns (kept: Book)
    ensures kept == Kept(book, keep)
  {
    kept := book;
    var rest := book.Keys;
    KeepAll(book, rest + keep);
    while rest != {}
      invariant kept == Kept(book, rest + keep)
      decreases |rest|
    {
      ghost var some := SomeIn(rest);
      var id :| id in rest;
      KeepNext(book, rest, keep, id);
      if id !in keep { kept := kept - {id}; }
      rest := rest - {id};
    }
    assert {} + keep == keep;
  }

  lemma {:induction false} KeepAll(book: Book, keep: set<int>)
    requires book.Keys <= keep
    ensures Kept(book, keep) == book
  {
    assert Kept(book, keep).Keys == book.Keys;
  }

  lemma {:induction false} KeepNext(book: Book, rest: set<int>, keep: set<int>, id: int)
    requires id in rest
    ensures Kept(book, rest - {id} + keep) == if id in keep then Kept(book, rest + keep)
              else Kept(book, rest + keep) - {id}
  {
    var a := Kept(book, rest - {id} + keep);
    var b := if id in keep then Kept(book, rest + keep) else Kept(book, rest + keep) - {id};
    assert a.Keys == b.Keys;
  }

  lemma {:induction false} StaleStaysSane(book: Book, ids: set<int>, now: int)
    requires SaneBook(book)
    ensures SaneBook(StaleSome(book, ids, now))
  {
  }

  /** Missing, or marked stale. */
  predicate Gone(s: Option<Snapshot>) {
    s.Some? ==> s.value.staleSince.Some?
  }

  lemma {:induction false} StaleEntry(book: Book, ids: set<int>, now: int, id: int)
    requires id in ids
    ensures Gone(Entry(StaleSome(book, ids, now), id))
  {
  }

  lemma {:induction false} StaleIsUnusable(yes: Option<Snapshot>, no: Option<Snapshot>, ttl: Option<int>,
                                           tobTtl: Option<int>, t: int, limits: Limits)
    requires Gone(yes) && Gone(no)
    ensures var y := if yes.Some? then Some(ReadOf(yes.value, ttl, tobTtl, t)) else None;
            var n := if no.Some? then Some(ReadOf(no.value, ttl, tobTtl, t)) else None;
            !SideUsability(y, n, limits).yes && !SideUsability(y, n, limits).no
  {
  }

  class PriceCache {
    var cache: Book
    var noCache: Book
    var ttl: Option<int>
    var tobTtl: Option<int>

    ghost predicate Valid()
      reads this
    {
      SaneBook(cache) && SaneBook(noCache)
    }

    constructor ()
      ensures Valid() && cache == map[] && noCache == map[] && ttl == None && tobTtl == None
    {
      cache, noCache, ttl, tobTtl := map[], map[], None, None;
    }

    /** A non-positive time to live means none. */
    method SetTtl(ms: int)
      modifies this`ttl
      ensures ttl == if ms > 0 then Some(ms) else None
    {
      ttl := if ms > 0 then Some(ms) else None;
    }

    method SetTobTtl(ms: int)
      modifies this`tobTtl
      ensures tobTtl == if ms > 0 then Some(ms) else None
    {
      tobTtl := if ms > 0 then Some(ms) else None;
    }

    method Track(id: int)
      requires Valid()
      modifies this`cache
      ensures Valid() && cache == if id in old(cache) then old(cache) else old(cache)[id := Sentinel()]
    {
      if id !in cache { cache := cache[id := Sentinel()]; }
    }

    /** NO-side updates go to their own book and never touch the YES one. */
    method ApplyUpdate(u: Update) returns (changed: bool)
      requires Valid() && u.timestamp > 0
      modifies this`cache, this`noCache
      ensures Valid()
      ensures cache == if u.onNo then old(cache)
                else old(cache)[u.marketId := Updated(Entry(old(cache), u.marketId), u)]
      ensures noCache == if u.onNo then old(noCache)[u.marketId := Updated(Entry(old(noCache), u.marketId), u)]
                else old(noCache)
      ensures changed == Reports(Entry(if u.onNo then old(noCache) else old(cache), u.marketId), u)
    {
      var book := if u.onNo then noCache else cache;
      var prev := Entry(book, u.marketId);
      var next: Snapshot;
      if IsPlaceholder(u.bid, u.ask) {
        var wasLive := WasLive(prev);
        next := Sentinel().(lastUpdate := if wasLive then prev.value.lastUpdate else 0,
                            staleSince := if wasLive then Some(u.timestamp) else None);
        changed := wasLive;
      } else {
        var moved := TopMoved(prev, u);
        changed := moved || Level(prev.value.askLevels, 1) != Level(u.askLevels, 1)
                         || Level(prev.value.bidLevels, 1) != Level(u.bidLevels, 1);
        next := Snapshot(u.bid, u.ask, u.bidSize, u.askSize, u.timestamp, None,
                         if moved then u.timestamp else prev.value.tobChange, false, u.askLevels, u.bidLevels);
      }
      if u.onNo { noCache := noCache[u.marketId := next]; } else { cache := cache[u.marketId := next]; }
    }

    /** No side of the market can be bought, whenever and under whatever limits it is read. */
    ghost predicate Unbuyable(id: int)
      reads this
    {
      forall t, limits :: !SideUsability(Get(id, t), GetNo(id, t), limits).yes &&
                          !SideUsability(Get(id, t), GetNo(id, t), limits).no
    }

    /** A lost platform connection: every book in the cache goes stale, whatever platform it is on, so nothing can be
        bought until it is quoted again. */
    method MarkStale(now: int)
      requires Valid()
      modifies this`cache, this`noCache
      ensures Valid() && cache == StaleBook(old(cache), now) && noCache == StaleBook(old(noCache), now)
      ensures forall id :: Unbuyable(id)
    {
      cache := StaleEach(cache, now);
      noCache := StaleEach(noCache, now);
      forall id ensures Unbuyable(id) {
        forall t, limits
          ensures !SideUsability(Get(id, t), GetNo(id, t), limits).yes &&
                  !SideUsability(Get(id, t), GetNo(id, t), limits).no
        {
          StaleIsUnusable(Entry(cache, id), Entry(noCache, id), ttl, tobTtl, t, limits);
        }
      }
    }

    /** The listed markets' books go stale and cannot be bought; every other market keeps both of its books. */
    method MarkStaleByIds(ids: seq<int>, now: int)
      requires Valid()
      modifies this`cache, this`noCache
      ensures Valid() && cache == StaleSome(old(cache), SetOf(ids), now) &&
              noCache == StaleSome(old(noCache), SetOf(ids), now)
      ensures forall id :: id in ids ==> Unbuyable(id)
    {
      hide StaleSome, Staled;
      MarkNone(cache, now);
      MarkNone(noCache, now);
      assert SetOf(ids[..0]) == {};
      for i := 0 to |ids|
        modifies this`cache, this`noCache
        invariant cache == StaleSome(old(cache), SetOf(ids[..i]), now)
        invariant noCache == StaleSome(old(noCache), SetOf(ids[..i]), now)
      {
        assert SetOf(ids[..i + 1]) == SetOf(ids[..i]) + {ids[i]} by { assert ids[..i + 1] == ids[..i] + [ids[i]]; }
        MarkNext(old(cache), SetOf(ids[..i]), ids[i], now);
        MarkNext(old(noCache), SetOf(ids[..i]), ids[i], now);
        if ids[i] in cache { cache := cache[ids[i] := Staled(cache[ids[i]], now)]; }
        if ids[i] in noCache { noCache := noCache[ids[i] := Staled(noCache[ids[i]], now)]; }
      }
      assert ids[..|ids|] == ids;
      StaleStaysSane(old(cache), SetOf(ids), now);
      StaleStaysSane(old(noCache), SetOf(ids), now);
      forall id | id in ids ensures Unbuyable(id) {
        StaleEntry(old(cache), SetOf(ids), now, id);
        StaleEntry(old(noCache), SetOf(ids), now, id);
        forall t, limits
          ensures !SideUsability(Get(id, t), GetNo(id, t), limits).yes &&
                  !SideUsability(Get(id, t), GetNo(id, t), limits).no
        {
          StaleIsUnusable(Entry(cache, id), Entry(noCache, id), ttl, tobTtl, t, limits);
        }
      }
    }

    /** Keeps the listed markets' books as they are, and forgets every other market: it reads as never tracked. */
    method Evict(keep: set<int>)
      requires Valid()
      modifies this`cache, this`noCache
      ensures Valid() && cache == Kept(old(cache), keep) && noCache == Kept(old(noCache), keep)
      ensures forall id, t :: id in keep ==> Get(id, t) == old(Get(id, t)) && GetNo(id, t) == old(GetNo(id, t))
      ensures forall id, t :: id !in keep ==> Get(id, t) == None && GetNo(id, t) == None
    {
      cache := EvictFrom(cache, keep);
      noCache := EvictFrom(noCache, keep);
    }

    function Get(id: int, now: int): Option<Snapshot>
      reads this
    {
      ReadEntry(cache, id, ttl, tobTtl, now)
    }

    function GetNo(id: int, now: int): Option<Snapshot>
      reads this
    {
      ReadEntry(noCache, id, ttl, tobTtl, now)
    }
  }

  // ---------- Which sides can be bought ----------

  datatype Limits = Limits(dustBand: real, maxBookWidth: real)

  predicate Dust(s: Snapshot, limits: Limits) {
    s.bid > 0.0 && s.ask < SENTINEL_ASK && s.bid <= limits.dustBand && s.ask >= 1.0 - limits.dustBand
  }

  predicate IsDead(s: Option<Snapshot>, limits: Limits) {
    s.None? || s.value.lastUpdate == 0 || s.value.staleSince.Some? || s.value.agedOut || Dust(s.value, limits)
  }

  predicate RealNo(s: Option<Snapshot>) {
    && s.Some? && s.value.staleSince.None? && s.value.lastUpdate > 0
    && 0.0 < s.value.ask <= 1.0 && s.value.askSize > 0.0
  }

  datatype Usability = Usability(yes: bool, no: bool, noFromBook: bool)

  function SideUsability(yes: Option<Snapshot>, no: Option<Snapshot>, limits: Limits): Usability {
    var dead := IsDead(yes, limits);
    var noFromBook := RealNo(no);
    var bothReal := yes.Some? && yes.value.bid > 0.0 && yes.value.ask < SENTINEL_ASK;
    var crossed := bothReal && yes.value.bid >= yes.value.ask;
    var wide := bothReal && yes.value.ask - yes.value.bid > limits.maxBookWidth;
    var dust := bothReal && yes.value.bid <= limits.dustBand && yes.value.ask >= 1.0 - limits.dustBand;
    var suppress := (crossed || wide || dust) && !noFromBook;
    Usability(!dead && !dust && 0.0 < yes.value.ask <= 1.0 && yes.value.askSize > 0.0,
              noFromBook || (!dead && yes.value.bid > 0.0 && yes.value.bidSize > 0.0 && !suppress),
              noFromBook)
  }

  /** No side is ever usable on a sentinel: a usable YES has a real ask in (0, 1] from a live book, a usable NO a real
      ask of its own book or a real YES bid. */
  lemma {:induction false} NeverFromSentinel(yes: Option<Snapshot>, no: Option<Snapshot>, limits: Limits)
    ensures var u := SideUsability(yes, no, limits);
            && (u.yes ==> yes.Some? && yes.value.lastUpdate != 0 && yes.value.staleSince.None? &&
                          0.0 < yes.value.ask <= 1.0 && yes.value.askSize > 0.0)
            && (u.no ==> (no.Some? && 0.0 < no.value.ask <= 1.0 && no.value.askSize > 0.0) ||
                         (yes.Some? && yes.value.bid > 0.0 && yes.value.bidSize > 0.0))
  {
  }
}
