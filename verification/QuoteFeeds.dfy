/** What a quote cache holds and shows after a feed (services/arb-solver/src/clob/price-cache.ts, lines 62-206),
    read off the frames that were fed. */
module QuoteFeeds {
  import opened Wrappers
  import opened PriceCaches
  import opened LegBuilder
  import opened LegSides
  import opened FingerprintLimits

  /** A frame that carries no usable quote at all. */
  predicate Blank(u: Update) {
    u.bid <= 0.0 && u.ask >= 1.5
  }

  predicate SameTop(u: Update, v: Update) {
    u.bid == v.bid && u.ask == v.ask && u.bidSize == v.bidSize && u.askSize == v.askSize
  }

  /** Real frames of one side of one market, in order, with positive stamps. */
  ghost predicate RealFrames(us: seq<Update>) {
    forall i :: 0 <= i < |us| ==> !Blank(us[i]) && us[i].timestamp > 0
  }

  function AfterFrames(us: seq<Update>): Option<Snapshot> {
    if us == [] then None else Some(Updated(AfterFrames(us[..|us| - 1]), us[|us| - 1]))
  }

  /** After a run of real frames the book is the last one, and its top-of-book clock the stamp of the first frame of
      the last stretch over which the top did not move. */
  lemma {:induction false} FramesShow(us: seq<Update>) returns (j: nat)
    requires us != [] && RealFrames(us)
    ensures j < |us| && forall i :: j <= i < |us| ==> SameTop(us[i], us[|us| - 1])
    ensures j > 0 ==> !SameTop(us[j - 1], us[|us| - 1])
    ensures var u := us[|us| - 1];
            AfterFrames(us) == Some(Snapshot(u.bid, u.ask, u.bidSize, u.askSize, u.timestamp, None, us[j].timestamp,
                                             false,
                                             u.askLevels, u.bidLevels))
  {
    var m := |us| - 1;
    if m == 0 {
      j := 0;
    } else {
      var before := FramesShow(us[..m]);
      assert forall i :: 0 <= i < m ==> us[..m][i] == us[i];
      if SameTop(us[m - 1], us[m]) {
        j := before;
      } else {
        j := m;
      }
    }
  }

  /** A blank frame leaves nothing to trade: a book that was live reads as stale since that frame and keeps the time
      it was last quoted, any other as never quoted. Nothing of what was there before is left. */
  lemma {:induction false} BlankFrame(prev: Option<Snapshot>, u: Update)
    requires Blank(u)
    ensures var s := Updated(prev, u);
            var wasLive := prev.Some? && prev.value.lastUpdate > 0 && prev.value.staleSince == None &&
                           !(prev.value.bid <= 0.0 && prev.value.ask >= 1.5);
            && s.bid == 0.0 && s.ask == 2.0 && s.bidSize == 0.0 && s.askSize == 0.0 && s.tobChange == 0
            && s.askLevels == None && s.bidLevels == None && !s.agedOut
            && (if wasLive then s.lastUpdate == prev.value.lastUpdate && s.staleSince == Some(u.timestamp)
                else s.lastUpdate == 0 && s.staleSince == None)
  {
  }

  /** After a stale mark the next real frame starts the top-of-book clock anew, whatever it quotes. */
  lemma {:induction false} QuotedAgain(s: Snapshot, at: int, u: Update)
    requires s.lastUpdate > 0 && !Blank(u)
    ensures var t := Updated(Some(Staled(s, at)), u);
            && t == Snapshot(u.bid, u.ask, u.bidSize, u.askSize, u.timestamp, None, u.timestamp, false, u.askLevels,
                             u.bidLevels)
  {
  }

  /** A level of a ladder, if it is there. */
  function LevelOf(ladder: Option<Ladder>, i: nat): Option<(real, real)> {
    if ladder == None || |ladder.value| <= i then None else Some(ladder.value[i])
  }

  /** Exactly when a frame is reported to the solver: a real one when the book was missing or never quoted, when its
      top moved, or when the second level of either ladder did; a blank one when it silences a live book. */
  lemma {:induction false} ReportedIff(prev: Option<Snapshot>, u: Update)
    ensures Reports(prev, u) <==>
              if Blank(u) then
                prev.Some? && prev.value.lastUpdate > 0 && prev.value.staleSince == None &&
                !(prev.value.bid <= 0.0 && prev.value.ask >= 1.5)
              else
                || prev.None? || prev.value.lastUpdate == 0
                || prev.value.bid != u.bid || prev.value.ask != u.ask
                || prev.value.bidSize != u.bidSize || prev.value.askSize != u.askSize
                || LevelOf(prev.value.askLevels, 1) != LevelOf(u.askLevels, 1)
                || LevelOf(prev.value.bidLevels, 1) != LevelOf(u.bidLevels, 1)
  {
  }

  /** Too old to be shown: not quoted within the one limit, or unmoved at the top beyond the other. */
  predicate Expired(s: Snapshot, ttl: Option<int>, tobTtl: Option<int>, now: int) {
    && s.lastUpdate > 0
    && ((ttl.Some? && now > s.lastUpdate + ttl.value) || (tobTtl.Some? && s.tobChange > 0 &&
                                                          now > s.tobChange + tobTtl.value))
  }

  /** A read hands out the book as it is unless it is stale or too old; then no price and no ladder of it, but
      everything else, marked if it is too old. */
  lemma {:induction false} ReadIs(book: Book, id: int, ttl: Option<int>, tobTtl: Option<int>, now: int)
    ensures ReadEntry(book, id, ttl, tobTtl, now).Some? <==> id in book
    ensures id in book ==>
              var s, r := book[id], ReadEntry(book, id, ttl, tobTtl, now).value;
              if s.staleSince == None && !Expired(s, ttl, tobTtl, now) then r == s
              else r == Snapshot(0.0, 2.0, s.bidSize, s.askSize, s.lastUpdate, s.staleSince, s.tobChange,
                                 Expired(s, ttl, tobTtl, now), None, None)
  {
  }

  /** A book marked stale reads as one with no price and no ladder that is stale since the mark, at every clock. */
  lemma {:induction false} MarkedReads(book: Book, id: int, at: int, ttl: Option<int>, tobTtl: Option<int>, now: int)
    requires id in book
    ensures var s := book[id];
            ReadEntry(StaleBook(book, at), id, ttl, tobTtl, now) ==
              Some(Snapshot(0.0, 2.0, s.bidSize, s.askSize, s.lastUpdate, Some(at), s.tobChange,
                            Expired(s, ttl, tobTtl, now), None, None))
  {
  }

  /** What is fed to a market can be bought: after a real frame on its YES book a read within the limits offers YES
      exactly when the frame itself does, and NO into its bid exactly when that is a fair one. */
  lemma {:induction false} FedCanBeBought(prev: Option<Snapshot>, no: Option<Snapshot>, u: Update, ttl: Option<int>,
                                          tobTtl: Option<int>,
                                          now: int, limits: Limits)
    requires !Blank(u) && u.timestamp > 0
    requires !Expired(Updated(prev, u), ttl, tobTtl, now)
    ensures var q := Quote(Some(ReadOf(Updated(prev, u), ttl, tobTtl, now)), no);
            var dust := 0.0 < u.bid <= limits.dustBand && 1.0 - u.ask <= limits.dustBand;
            && (YesOffered(q, limits) <==> 0.0 < u.ask <= 1.0 && u.askSize > 0.0 && !dust)
            && (NoMirrored(q, limits) <==>
                  u.bid > 0.0 && u.bidSize > 0.0 &&
                  (u.ask < 2.0 ==> u.bid < u.ask <= u.bid + limits.maxBookWidth && !dust))
  {
  }
}
